/**
  The file behind the replicated block device (example/block/server.cc): single
  writes, the loop of file_pwrite (melon/raft/util.cc), the disk it stands for, and
  images of it taken while it changes.
*/
module BlockFile {
  import opened Decimal
  import opened Bytes

  /** A write as it stands in the log. */
  datatype Write = Write(offset: int64, data: seq<Byte>)

  // ----- The file

  /** Bytes put into the file in one place. */
  datatype Patch = Patch(offset: nat, data: seq<Byte>)

  function Zeros(n: nat): seq<Byte> {
    seq(n, _ => 0)
  }

  /** The file after a patch: a gap before it is filled with zeros. */
  function Pwrite(file: seq<Byte>, w: Patch): seq<Byte> {
    if w.data == [] then file
    else
      var base := if |file| < w.offset then file + Zeros(w.offset - |file|) else file;
      var end := w.offset + |w.data|;
      base[..w.offset] + w.data + (if end < |base| then base[end..] else [])
  }

  predicate Covers(w: Patch, p: nat) {
    w.offset <= p < w.offset + |w.data|
  }

  function Max(a: nat, b: nat): nat {
    if a < b then b else a
  }

  function End(w: Patch): nat {
    if w.data == [] then 0 else w.offset + |w.data|
  }

  lemma PwriteLength(file: seq<Byte>, w: Patch)
    ensures |Pwrite(file, w)| == Max(|file|, End(w))
  {
  }

  lemma PwriteByte(file: seq<Byte>, w: Patch, p: nat)
    ensures ByteAt(Pwrite(file, w), p) == if Covers(w, p) then w.data[p - w.offset] else ByteAt(file, p)
  {
  }

  function FileAfter(file: seq<Byte>, ws: seq<Patch>): seq<Byte> {
    if ws == [] then file else Pwrite(FileAfter(file, ws[..|ws| - 1]), ws[|ws| - 1])
  }

  lemma {:induction false} FileAfterConcat(file: seq<Byte>, a: seq<Patch>, b: seq<Patch>)
    ensures FileAfter(file, a + b) == FileAfter(FileAfter(file, a), b)
    decreases |b|
  {
    if b == [] {
      assert a + b == a;
    } else {
      var n := |b| - 1;
      assert (a + b)[..|a| + n] == a + b[..n];
      FileAfterConcat(file, a, b[..n]);
    }
  }

  /** Two adjacent patches are one. */
  lemma PwriteTwice(file: seq<Byte>, at: nat, a: seq<Byte>, b: seq<Byte>)
    requires a != []
    ensures Pwrite(Pwrite(file, Patch(at, a)), Patch(at + |a|, b)) == Pwrite(file, Patch(at, a + b))
  {
    var first, second, both := Patch(at, a), Patch(at + |a|, b), Patch(at, a + b);
    var x, y := Pwrite(Pwrite(file, first), second), Pwrite(file, both);
    PwriteLength(file, first);
    PwriteLength(Pwrite(file, first), second);
    PwriteLength(file, both);
    forall p: nat ensures ByteAt(x, p) == ByteAt(y, p) {
      PwriteByte(file, first, p);
      PwriteByte(Pwrite(file, first), second, p);
      PwriteByte(file, both, p);
    }
    SameFile(x, y);
  }

  lemma SameFile(a: seq<Byte>, b: seq<Byte>)
    requires |a| == |b| && forall p: nat :: ByteAt(a, p) == ByteAt(b, p)
    ensures a == b
  {
    forall p | 0 <= p < |a| ensures a[p] == b[p] {
      assert ByteAt(a, p) == ByteAt(b, p);
    }
  }

  /** Patches one behind the other, from position `at` on. */
  ghost predicate Chained(ps: seq<Patch>, at: nat) {
    ps == [] || (ps[0].offset == at && ps[0].data != [] && Chained(ps[1..], at + |ps[0].data|))
  }

  function Joined(ps: seq<Patch>): seq<Byte> {
    if ps == [] then [] else ps[0].data + Joined(ps[1..])
  }

  /** are one patch. */
  lemma {:induction false} ChainIsOne(file: seq<Byte>, ps: seq<Patch>, at: nat)
    requires Chained(ps, at)
    ensures FileAfter(file, ps) == Pwrite(file, Patch(at, Joined(ps)))
    decreases |ps|
  {
    if ps != [] {
      var p, rest := ps[0], ps[1..];
      assert ps == [p] + rest;
      FileAfterConcat(file, [p], rest);
      FileAfterOne(file, p);
      ChainIsOne(Pwrite(file, p), rest, at + |p.data|);
      PwriteTwice(file, at, p.data, Joined(rest));
    }
  }

  lemma FileAfterMore(file: seq<Byte>, ps: seq<Patch>, p: Patch)
    ensures FileAfter(file, ps + [p]) == Pwrite(FileAfter(file, ps), p)
  {
    assert (ps + [p])[..|ps|] == ps;
  }

  lemma FileAfterOne(file: seq<Byte>, p: Patch)
    ensures FileAfter(file, [p]) == Pwrite(file, p)
  {
    assert [p][..0] == [];
  }

  // ----- The reference: an infinite disk of zeros

  /** Position p of the disk holds what the last write covering it put there, else 0. */
  function Disk(ws: seq<Patch>, p: nat): Byte {
    if ws == [] then 0
    else if Covers(ws[|ws| - 1], p) then ws[|ws| - 1].data[p - ws[|ws| - 1].offset]
    else Disk(ws[..|ws| - 1], p)
  }

  /** In terms of the writes: entry k is the last that reaches over p. */
  lemma {:induction false} DiskIsLast(ws: seq<Patch>, k: nat, p: nat)
    requires k < |ws| && ws[k].offset <= p < ws[k].offset + |ws[k].data|
    requires forall j :: k < j < |ws| ==> !(ws[j].offset <= p < ws[j].offset + |ws[j].data|)
    ensures Disk(ws, p) == ws[k].data[p - ws[k].offset]
  {
    if k < |ws| - 1 {
      DiskIsLast(ws[..|ws| - 1], k, p);
    }
  }

  lemma {:induction false} DiskIsZero(ws: seq<Patch>, p: nat)
    requires forall j :: 0 <= j < |ws| ==> !(ws[j].offset <= p < ws[j].offset + |ws[j].data|)
    ensures Disk(ws, p) == 0
  {
    if ws != [] {
      DiskIsZero(ws[..|ws| - 1], p);
    }
  }

  lemma {:induction false} FileIsDisk(ws: seq<Patch>, p: nat)
    ensures ByteAt(FileAfter([], ws), p) == Disk(ws, p)
  {
    if ws != [] {
      FileIsDisk(ws[..|ws| - 1], p);
      PwriteByte(FileAfter([], ws[..|ws| - 1]), ws[|ws| - 1], p);
    }
  }

  /** The file reaches exactly as far as the furthest write. */
  lemma {:induction false} FileLength(ws: seq<Patch>)
    ensures forall k :: 0 <= k < |ws| ==> End(ws[k]) <= |FileAfter([], ws)|
    ensures |FileAfter([], ws)| == 0 || exists k :: 0 <= k < |ws| && End(ws[k]) == |FileAfter([], ws)|
  {
    if ws != [] {
      var n := |ws| - 1;
      FileLength(ws[..n]);
      var before := FileAfter([], ws[..n]);
      PwriteLength(before, ws[n]);
      assert forall k :: 0 <= k < n ==> ws[..n][k] == ws[k];
      if |FileAfter([], ws)| != 0 && End(ws[n]) != |FileAfter([], ws)| {
        var k :| 0 <= k < n && End(ws[..n][k]) == |before|;
        assert End(ws[k]) == |FileAfter([], ws)|;
      }
    }
  }

  /** Patches within a limit keep the file within it, and none shortens it. */
  lemma {:induction false} LengthAfter(file: seq<Byte>, ps: seq<Patch>, limit: nat)
    ensures |file| <= |FileAfter(file, ps)|
    ensures forall k :: 0 <= k < |ps| ==> End(ps[k]) <= |FileAfter(file, ps)|
    ensures |file| <= limit && (forall k :: 0 <= k < |ps| ==> End(ps[k]) <= limit) ==> |FileAfter(file, ps)| <= limit
  {
    if ps != [] {
      var n := |ps| - 1;
      LengthAfter(file, ps[..n], limit);
      PwriteLength(FileAfter(file, ps[..n]), ps[n]);
      assert forall k :: 0 <= k < n ==> ps[..n][k] == ps[k];
    }
  }

  // ----- file_pwrite

  /** The loop of file_pwrite: the position of the descriptor, the offset to write at, and what is left of the data. */
  datatype Progress = Progress(pos: nat, offset: int, rest: seq<Byte>)

  /** Where the next piece goes: for a negative offset to the position of the descriptor. */
  function Place(p: Progress): nat {
    if p.offset >= 0 then p.offset else p.pos
  }

  /** The system has written n bytes. Only a write at a negative offset moves the descriptor. */
  function Onward(p: Progress, n: nat): Progress
    requires n <= |p.rest|
  {
    Progress(if p.offset < 0 then p.pos + n else p.pos, p.offset + n, p.rest[n..])
  }

  /** The system can write n bytes, within the largest file that the file system allows. */
  predicate Takes(p: Progress, n: nat, limit: nat) {
    0 < n <= |p.rest| && Place(p) + n <= limit
  }

  /** Where the loop gets to when the system writes these sizes; it ends where the system cannot, or does not. */
  function Pieces(p: Progress, parts: seq<nat>, limit: nat): Progress
    decreases |parts|
  {
    if p.rest == [] || parts == [] || !Takes(p, parts[0], limit) then p
    else Pieces(Onward(p, parts[0]), parts[1..], limit)
  }

  /** The patches it puts into the file on the way. */
  function Cuts(p: Progress, parts: seq<nat>, limit: nat): seq<Patch>
    decreases |parts|
  {
    if p.rest == [] || parts == [] || !Takes(p, parts[0], limit) then []
    else [Patch(Place(p), p.rest[..parts[0]])] + Cuts(Onward(p, parts[0]), parts[1..], limit)
  }

  lemma PiecesStop(p: Progress, parts: seq<nat>, i: nat, limit: nat)
    requires i <= |parts| && (p.rest == [] || i == |parts| || !Takes(p, parts[i], limit))
    ensures Pieces(p, parts[i..], limit) == p && Cuts(p, parts[i..], limit) == []
  {
  }

  lemma PiecesGoOn(p: Progress, parts: seq<nat>, i: nat, limit: nat)
    requires i < |parts| && Takes(p, parts[i], limit)
    ensures Pieces(p, parts[i..], limit) == Pieces(Onward(p, parts[i]), parts[i + 1..], limit)
    ensures Cuts(p, parts[i..], limit) ==
            [Patch(Place(p), p.rest[..parts[i]])] + Cuts(Onward(p, parts[i]), parts[i + 1..], limit)
  {
    assert parts[i..][1..] == parts[i + 1..];
  }

  /** An open file: its contents and the position of its descriptor. */
  datatype Handle = Handle(file: seq<Byte>, pos: nat)

  function Start(h: Handle, w: Write): Progress {
    Progress(h.pos, w.offset, w.data)
  }

  /** The open file after file_pwrite, complete or not. */
  function Attempt(h: Handle, w: Write, parts: seq<nat>, limit: nat): Handle {
    Handle(FileAfter(h.file, Cuts(Start(h, w), parts, limit)), Pieces(Start(h, w), parts, limit).pos)
  }

  predicate Completes(h: Handle, w: Write, parts: seq<nat>, limit: nat) {
    Pieces(Start(h, w), parts, limit).rest == []
  }

  /** The offset does not pass from negative to non-negative before the data ends. */
  predicate Straight(p: Progress) {
    p.offset >= 0 || |p.rest| <= -p.offset
  }

  /** Then the pieces lie one behind the other: it does not matter how the system cuts the data. */
  lemma {:induction false} StraightCuts(p: Progress, parts: seq<nat>, limit: nat)
    requires Straight(p)
    ensures Chained(Cuts(p, parts, limit), Place(p))
    decreases |parts|
  {
    if !(p.rest == [] || parts == [] || !Takes(p, parts[0], limit)) {
      var n, q := parts[0], Onward(p, parts[0]);
      StraightCuts(q, parts[1..], limit);
      ChainMore(Patch(Place(p), p.rest[..n]), Cuts(q, parts[1..], limit), Place(p), Place(q));
    }
  }

  lemma ChainMore(first: Patch, others: seq<Patch>, at: nat, end: nat)
    requires first.offset == at && first.data != []
    requires Chained(others, end) && (others != [] ==> end == at + |first.data|)
    ensures Chained([first] + others, at)
  {
    assert ([first] + others)[1..] == others;
  }

  /** The pieces and what is left are the data. */
  lemma {:induction false} CutsAreData(p: Progress, parts: seq<nat>, limit: nat)
    ensures Joined(Cuts(p, parts, limit)) + Pieces(p, parts, limit).rest == p.rest
    decreases |parts|
  {
    if !(p.rest == [] || parts == [] || !Takes(p, parts[0], limit)) {
      var n, q := parts[0], Onward(p, parts[0]);
      CutsAreData(q, parts[1..], limit);
      JoinMore(Patch(Place(p), p.rest[..n]), Cuts(q, parts[1..], limit), Pieces(q, parts[1..], limit).rest);
      assert p.rest[..n] + p.rest[n..] == p.rest;
    }
  }

  lemma JoinMore(first: Patch, others: seq<Patch>, rest: seq<Byte>)
    ensures Joined([first] + others) + rest == first.data + (Joined(others) + rest)
  {
    assert ([first] + others)[1..] == others;
  }

  /** The loop, at part i, with the file written so far, is on its way to where file_pwrite gets. */
  ghost predicate Tracks(h: Handle, w: Write, parts: seq<nat>, limit: nat, i: nat, p: Progress, file: seq<Byte>) {
    && i <= |parts|
    && Pieces(p, parts[i..], limit) == Pieces(Start(h, w), parts, limit)
    && FileAfter(file, Cuts(p, parts[i..], limit)) == Attempt(h, w, parts, limit).file
  }

  lemma TracksStart(h: Handle, w: Write, parts: seq<nat>, limit: nat)
    ensures Tracks(h, w, parts, limit, 0, Start(h, w), h.file)
  {
    assert parts[0..] == parts;
  }

  lemma TracksNext(h: Handle, w: Write, parts: seq<nat>, limit: nat, i: nat, p: Progress, file: seq<Byte>)
    requires Tracks(h, w, parts, limit, i, p, file) && i < |parts| && Takes(p, parts[i], limit)
    ensures Tracks(h, w, parts, limit, i + 1, Onward(p, parts[i]), Pwrite(file, Patch(Place(p), p.rest[..parts[i]])))
  {
    var patch, others := Patch(Place(p), p.rest[..parts[i]]), Cuts(Onward(p, parts[i]), parts[i + 1..], limit);
    PiecesGoOn(p, parts, i, limit);
    FileAfterConcat(file, [patch], others);
    FileAfterOne(file, patch);
  }

  lemma TracksEnd(h: Handle, w: Write, parts: seq<nat>, limit: nat, i: nat, p: Progress, file: seq<Byte>)
    requires Tracks(h, w, parts, limit, i, p, file)
    requires p.rest == [] || i == |parts| || !Takes(p, parts[i], limit)
    ensures Handle(file, p.pos) == Attempt(h, w, parts, limit)
    ensures Completes(h, w, parts, limit) <==> p.rest == []
  {
    PiecesStop(p, parts, i, limit);
  }

  // ----- What fits

  /**
    A write that some file system with this limit can complete: at its offset, or at
    the position of the descriptor; or, at a negative offset, the beginning at that
    position and the rest, once the offset has become zero, from the start of the file.
  */
  predicate Acceptable(w: Write, limit: nat) {
    var offset: int := w.offset;
    || w.data == []
    || (if offset >= 0 then offset + |w.data| <= limit
        else |w.data| <= limit || (-offset <= limit && offset + |w.data| <= limit))
  }

  /** The same from the middle of the loop. */
  predicate Fits(p: Progress, limit: nat) {
    || p.rest == []
    || (if p.offset >= 0 then p.offset + |p.rest| <= limit
        else p.pos + |p.rest| <= limit || (p.pos - p.offset <= limit && p.offset + |p.rest| <= limit))
  }

  lemma {:induction false} CutsWithin(p: Progress, parts: seq<nat>, limit: nat)
    ensures forall k :: 0 <= k < |Cuts(p, parts, limit)| ==> End(Cuts(p, parts, limit)[k]) <= limit
    decreases |parts|
  {
    if !(p.rest == [] || parts == [] || !Takes(p, parts[0], limit)) {
      CutsWithin(Onward(p, parts[0]), parts[1..], limit);
    }
  }

  /** If the loop completes, any length that holds all its pieces shows that the data fits. */
  lemma {:induction false} CompletedFits(p: Progress, parts: seq<nat>, limit: nat, length: nat)
    requires Pieces(p, parts, limit).rest == []
    requires forall k :: 0 <= k < |Cuts(p, parts, limit)| ==> End(Cuts(p, parts, limit)[k]) <= length
    ensures Fits(p, length)
    decreases |parts|
  {
    if p.rest != [] {
      var q, cuts := Onward(p, parts[0]), Cuts(p, parts, limit);
      assert cuts[0] == Patch(Place(p), p.rest[..parts[0]]);
      assert forall k :: 0 <= k < |cuts| - 1 ==> cuts[1..][k] == cuts[k + 1];
      CompletedFits(q, parts[1..], limit, length);
    }
  }

  /** How a system with this limit completes a write from position 0. */
  function FittingParts(w: Write, limit: nat): seq<nat>
    requires Acceptable(w, limit)
  {
    var offset: int := w.offset;
    if offset >= 0 || |w.data| <= limit then [|w.data|] else [-offset, |w.data| + offset]
  }

  lemma AcceptableCompletes(h: Handle, w: Write, limit: nat)
    requires Acceptable(w, limit) && h.pos == 0
    ensures Completes(h, w, FittingParts(w, limit), limit)
  {
    var p, parts := Start(h, w), FittingParts(w, limit);
    if p.rest != [] {
      if |parts| == 1 {
        OnePart(p, parts[0], limit);
      } else {
        TwoParts(p, parts[0], parts[1], limit);
      }
    }
  }

  lemma OnePart(p: Progress, n: nat, limit: nat)
    requires Takes(p, n, limit)
    ensures Pieces(p, [n], limit) == Onward(p, n) && Cuts(p, [n], limit) == [Patch(Place(p), p.rest[..n])]
  {
    assert [n][1..] == [];
  }

  lemma TwoParts(p: Progress, m: nat, n: nat, limit: nat)
    requires Takes(p, m, limit) && Takes(Onward(p, m), n, limit)
    ensures Pieces(p, [m, n], limit) == Onward(Onward(p, m), n)
    ensures Cuts(p, [m, n], limit) ==
            [Patch(Place(p), p.rest[..m]), Patch(Place(Onward(p, m)), Onward(p, m).rest[..n])]
  {
    assert [m, n][1..] == [n];
    OnePart(Onward(p, m), n, limit);
  }

  /** A completed write shows in the length of the file that it was acceptable; the file keeps within the limit. */
  lemma AttemptLength(h: Handle, w: Write, parts: seq<nat>, limit: nat)
    ensures |h.file| <= |Attempt(h, w, parts, limit).file|
    ensures |h.file| <= limit ==> |Attempt(h, w, parts, limit).file| <= limit
    ensures Completes(h, w, parts, limit) ==> Acceptable(w, |Attempt(h, w, parts, limit).file|)
  {
    var cuts := Cuts(Start(h, w), parts, limit);
    LengthAfter(h.file, cuts, limit);
    CutsWithin(Start(h, w), parts, limit);
    if Completes(h, w, parts, limit) {
      CompletedFits(Start(h, w), parts, limit, |FileAfter(h.file, cuts)|);
    }
  }

  // ----- Series of writes

  function PartsAt(parts: seq<seq<nat>>, k: nat): seq<nat> {
    if k < |parts| then parts[k] else []
  }

  /** The open file after a series of writes, each driven by its own sizes. */
  function HandleAfter(h: Handle, ws: seq<Write>, parts: seq<seq<nat>>, limit: nat): Handle {
    if ws == [] then h
    else
      var n := |ws| - 1;
      Attempt(HandleAfter(h, ws[..n], parts, limit), ws[n], PartsAt(parts, n), limit)
  }

  /** Write k of the series completes. */
  predicate CompletesAt(h: Handle, ws: seq<Write>, parts: seq<seq<nat>>, limit: nat, k: nat)
    requires k < |ws|
  {
    Completes(HandleAfter(h, ws[..k], parts, limit), ws[k], PartsAt(parts, k), limit)
  }

  /** A write that goes to the position of the descriptor. */
  predicate Negative(w: Write) {
    w.data != [] && w.offset < 0
  }

  /** A write at its offset; one at the position of the descriptor is taken to go to the start. */
  function Plain(w: Write): Patch {
    Patch(if w.offset < 0 then 0 else w.offset, w.data)
  }

  function Patches(ws: seq<Write>): (ps: seq<Patch>)
    ensures |ps| == |ws| && forall k :: 0 <= k < |ws| ==> ps[k] == Plain(ws[k])
  {
    seq(|ws|, k requires 0 <= k < |ws| => Plain(ws[k]))
  }

  /** Whatever the system cuts, a write that stays straight leaves the first part of its data in place. */
  lemma PlainAttempt(h: Handle, w: Write, parts: seq<nat>, limit: nat) returns (m: nat)
    requires Negative(w) ==> h.pos == 0 && Straight(Start(h, w))
    ensures m <= |w.data| && Attempt(h, w, parts, limit).file == Pwrite(h.file, Torn(Plain(w), m))
    ensures Completes(h, w, parts, limit) ==> m == |w.data| && Torn(Plain(w), m) == Plain(w)
    ensures !Negative(w) ==> Attempt(h, w, parts, limit).pos == h.pos
  {
    var p := Start(h, w);
    var cuts, left := Cuts(p, parts, limit), Pieces(p, parts, limit).rest;
    StraightCuts(p, parts, limit);
    CutsAreData(p, parts, limit);
    ChainIsOne(h.file, cuts, Place(p));
    m := |Joined(cuts)|;
    assert w.data[..m] == (Joined(cuts) + left)[..m] == Joined(cuts);
    if !Negative(w) {
      PosStays(p, parts, limit);
    }
    if w.data == [] {
      assert Joined(cuts) == [];
    }
  }

  lemma {:induction false} PosStays(p: Progress, parts: seq<nat>, limit: nat)
    requires p.offset >= 0 || p.rest == []
    ensures Pieces(p, parts, limit).pos == p.pos
    decreases |parts|
  {
    if !(p.rest == [] || parts == [] || !Takes(p, parts[0], limit)) {
      PosStays(Onward(p, parts[0]), parts[1..], limit);
    }
  }

  lemma CompletesPrefix(h: Handle, ws: seq<Write>, n: nat, parts: seq<seq<nat>>, limit: nat, k: nat)
    requires k < n <= |ws|
    ensures CompletesAt(h, ws[..n], parts, limit, k) == CompletesAt(h, ws, parts, limit, k)
  {
    assert ws[..n][..k] == ws[..k];
  }

  /** One more write at the end of a series. */
  lemma SeriesNext(h: Handle, ws: seq<Write>, w: Write, parts: seq<seq<nat>>, limit: nat)
    ensures var before, n := HandleAfter(h, ws, parts, limit), |ws|;
            && HandleAfter(h, ws + [w], parts, limit) == Attempt(before, w, PartsAt(parts, n), limit)
            && CompletesAt(h, ws + [w], parts, limit, n) == Completes(before, w, PartsAt(parts, n), limit)
    ensures forall k :: 0 <= k < |ws| ==>
                          CompletesAt(h, ws + [w], parts, limit, k) == CompletesAt(h, ws, parts, limit, k)
  {
    var longer, n := ws + [w], |ws|;
    assert longer[..n] == ws;
    forall k | 0 <= k < n ensures CompletesAt(h, longer, parts, limit, k) == CompletesAt(h, ws, parts, limit, k) {
      CompletesPrefix(h, longer, n, parts, limit, k);
    }
  }

  /** All writes complete, none of them at a negative offset. */
  ghost predicate PlainSeries(h: Handle, ws: seq<Write>, parts: seq<seq<nat>>, limit: nat) {
    forall k :: 0 <= k < |ws| ==> !Negative(ws[k]) && CompletesAt(h, ws, parts, limit, k)
  }

  lemma PlainPrefix(h: Handle, ws: seq<Write>, n: nat, parts: seq<seq<nat>>, limit: nat)
    requires PlainSeries(h, ws, parts, limit) && n <= |ws|
    ensures PlainSeries(h, ws[..n], parts, limit)
  {
    forall k | 0 <= k < n ensures !Negative(ws[..n][k]) && CompletesAt(h, ws[..n], parts, limit, k) {
      CompletesPrefix(h, ws, n, parts, limit, k);
    }
  }

  lemma FileAfterNext(file: seq<Byte>, ws: seq<Write>, n: nat)
    requires n < |ws|
    ensures FileAfter(file, Patches(ws[..n + 1])) == Pwrite(FileAfter(file, Patches(ws[..n])), Plain(ws[n]))
  {
    assert Patches(ws[..n + 1])[..n] == Patches(ws[..n]);
  }

  /** Without negative offsets, completed writes leave the file that the patches leave. */
  lemma {:induction false} SeriesIsFileAfter(h: Handle, ws: seq<Write>, parts: seq<seq<nat>>, limit: nat)
    requires PlainSeries(h, ws, parts, limit)
    ensures HandleAfter(h, ws, parts, limit) == Handle(FileAfter(h.file, Patches(ws)), h.pos)
  {
    if ws != [] {
      var n := |ws| - 1;
      PlainPrefix(h, ws, n, parts, limit);
      SeriesIsFileAfter(h, ws[..n], parts, limit);
      assert CompletesAt(h, ws, parts, limit, n) && !Negative(ws[n]);
      var m := PlainAttempt(HandleAfter(h, ws[..n], parts, limit), ws[n], PartsAt(parts, n), limit);
      FileAfterNext(h.file, ws, n);
      assert ws[..n + 1] == ws;
    }
  }

  // ----- Writes done in one piece each

  function Whole(h: Handle, w: Write): Handle {
    Handle(Pwrite(h.file, Patch(Place(Start(h, w)), w.data)), if Negative(w) then h.pos + |w.data| else h.pos)
  }

  function WholeAfter(h: Handle, ws: seq<Write>): Handle {
    if ws == [] then h else Whole(WholeAfter(h, ws[..|ws| - 1]), ws[|ws| - 1])
  }

  /** How far a series moves the descriptor. */
  function Advance(ws: seq<Write>): nat {
    if ws == [] then 0
    else Advance(ws[..|ws| - 1]) + if Negative(ws[|ws| - 1]) then |ws[|ws| - 1].data| else 0
  }

  /** Where the writes of a series go: those at negative offsets one behind the other. */
  function Placed(ws: seq<Write>, pos: nat): seq<Patch> {
    if ws == [] then []
    else
      var front, last := ws[..|ws| - 1], ws[|ws| - 1];
      Placed(front, pos) + [Patch(if last.offset < 0 then pos + Advance(front) else last.offset, last.data)]
  }

  lemma {:induction false} WholeIsPlaced(h: Handle, ws: seq<Write>)
    ensures WholeAfter(h, ws) == Handle(FileAfter(h.file, Placed(ws, h.pos)), h.pos + Advance(ws))
  {
    if ws != [] {
      var n := |ws| - 1;
      WholeIsPlaced(h, ws[..n]);
      assert Placed(ws, h.pos)[..|Placed(ws, h.pos)| - 1] == Placed(ws[..n], h.pos);
    }
  }

  /** So in one process each byte is what the last write covering it put there. */
  lemma WholeIsDisk(ws: seq<Write>, p: nat)
    ensures ByteAt(WholeAfter(Handle([], 0), ws).file, p) == Disk(Placed(ws, 0), p)
  {
    WholeIsPlaced(Handle([], 0), ws);
    FileIsDisk(Placed(ws, 0), p);
  }

  lemma WholeAttempt(h: Handle, w: Write, limit: nat)
    requires w.data != [] ==> Place(Start(h, w)) + |w.data| <= limit
    ensures Completes(h, w, [|w.data|], limit) && Attempt(h, w, [|w.data|], limit) == Whole(h, w)
  {
    if w.data != [] {
      OnePart(Start(h, w), |w.data|, limit);
      assert w.data[..|w.data|] == w.data;
      FileAfterOne(h.file, Patch(Place(Start(h, w)), w.data));
    }
  }

  // ----- Fuzzy images

  /** The file after the first k entries of the committed log. */
  function FileAt(log: seq<Patch>, k: nat): seq<Byte>
    requires k <= |log|
  {
    FileAfter([], log[..k])
  }

  /** Byte p of the image is the byte of some file between indices i and n. */
  ghost predicate Between(log: seq<Patch>, image: seq<Byte>, i: nat, n: nat, p: nat)
    requires i <= n <= |log|
  {
    exists k :: i <= k <= n && ByteAt(image, p) == ByteAt(FileAt(log, k), p)
  }

  /**
    An image of the file taken while entries i+1..n were being applied: each byte
    as of some index in between, possibly a different one for each byte.
  */
  ghost predicate Fuzzy(log: seq<Patch>, image: seq<Byte>, i: nat, n: nat) {
    && i <= n <= |log|
    && |FileAt(log, i)| <= |image| <= |FileAt(log, n)|
    && (forall p: nat :: Between(log, image, i, n, p))
  }

  lemma FileAtNext(log: seq<Patch>, k: nat)
    requires k < |log|
    ensures FileAt(log, k + 1) == Pwrite(FileAt(log, k), log[k])
  {
    assert log[..k + 1][..k] == log[..k];
  }

  lemma {:induction false} LengthGrows(log: seq<Patch>, i: nat, j: nat)
    requires i <= j <= |log|
    ensures |FileAt(log, i)| <= |FileAt(log, j)|
    decreases j
  {
    if i < j {
      LengthGrows(log, i, j - 1);
      FileAtNext(log, j - 1);
      PwriteLength(FileAt(log, j - 1), log[j - 1]);
    }
  }

  lemma FuzzyWeaken(log: seq<Patch>, image: seq<Byte>, i: nat, n: nat, i': nat, n': nat)
    requires Fuzzy(log, image, i, n) && i' <= i && n <= n' <= |log|
    ensures Fuzzy(log, image, i', n')
  {
    LengthGrows(log, i', i);
    LengthGrows(log, n, n');
    forall p: nat ensures Between(log, image, i', n', p) {
      assert Between(log, image, i, n, p);
    }
  }

  /** With nothing in between, the image is the file. */
  lemma FuzzyExact(log: seq<Patch>, image: seq<Byte>, n: nat)
    requires n <= |log|
    ensures Fuzzy(log, image, n, n) <==> image == FileAt(log, n)
  {
    var file := FileAt(log, n);
    if Fuzzy(log, image, n, n) {
      forall p | 0 <= p < |file| ensures image[p] == file[p] {
        assert Between(log, image, n, n, p);
      }
    }
    if image == file {
      forall p: nat ensures Between(log, image, n, n, p) {
        assert ByteAt(image, p) == ByteAt(FileAt(log, n), p);
      }
    }
  }

  /** The first m bytes of a write, as left behind when it is interrupted. */
  function Torn(w: Patch, m: nat): Patch
    requires m <= |w.data|
  {
    w.(data := w.data[..m])
  }

  /** Byte p after writing the first m bytes of entry i over a fuzzy image. */
  lemma TornByte(log: seq<Patch>, image: seq<Byte>, i: nat, n: nat, m: nat, p: nat)
    requires Fuzzy(log, image, i, n) && i < |log| && m <= |log[i].data|
    ensures Between(log, Pwrite(image, Torn(log[i], m)), i, Max(n, i + 1), p)
  {
    var w := log[i];
    var next := Pwrite(image, Torn(w, m));
    PwriteByte(image, Torn(w, m), p);
    FileAtNext(log, i);
    PwriteByte(FileAt(log, i), w, p);
    if Covers(Torn(w, m), p) {
      assert ByteAt(next, p) == ByteAt(FileAt(log, i + 1), p);
    } else {
      assert Between(log, image, i, n, p);
      var k :| i <= k <= n && ByteAt(image, p) == ByteAt(FileAt(log, k), p);
      assert ByteAt(next, p) == ByteAt(FileAt(log, k), p);
    }
  }

  lemma TornLength(log: seq<Patch>, image: seq<Byte>, i: nat, n: nat, m: nat)
    requires Fuzzy(log, image, i, n) && i < |log| && m <= |log[i].data|
    ensures |FileAt(log, i)| <= |Pwrite(image, Torn(log[i], m))| <= |FileAt(log, Max(n, i + 1))|
    ensures m == |log[i].data| ==> |FileAt(log, i + 1)| <= |Pwrite(image, Torn(log[i], m))|
  {
    PwriteLength(image, Torn(log[i], m));
    FileAtNext(log, i);
    PwriteLength(FileAt(log, i), log[i]);
    LengthGrows(log, n, Max(n, i + 1));
    LengthGrows(log, i + 1, Max(n, i + 1));
  }

  /** An interrupted write leaves a fuzzy image, still labelled i. */
  lemma TornStaysFuzzy(log: seq<Patch>, image: seq<Byte>, i: nat, n: nat, m: nat)
    requires Fuzzy(log, image, i, n) && i < |log| && m <= |log[i].data|
    ensures Fuzzy(log, Pwrite(image, Torn(log[i], m)), i, Max(n, i + 1))
  {
    TornLength(log, image, i, n, m);
    var next, hi := Pwrite(image, Torn(log[i], m)), Max(n, i + 1);
    forall p: nat ensures Between(log, next, i, hi, p) {
      TornByte(log, image, i, n, m, p);
    }
  }

  /** Byte p after replaying entry i completely over a fuzzy image. */
  lemma ReplayByte(log: seq<Patch>, image: seq<Byte>, i: nat, n: nat, p: nat)
    requires Fuzzy(log, image, i, n) && i < |log|
    ensures Between(log, Pwrite(image, log[i]), i + 1, Max(n, i + 1), p)
  {
    var w := log[i];
    PwriteByte(image, w, p);
    FileAtNext(log, i);
    PwriteByte(FileAt(log, i), w, p);
    assert Between(log, image, i, n, p);
    var k :| i <= k <= n && ByteAt(image, p) == ByteAt(FileAt(log, k), p);
    var k' := if Covers(w, p) then i + 1 else Max(k, i + 1);
    assert ByteAt(Pwrite(image, w), p) == ByteAt(FileAt(log, k'), p);
  }

  /** Replaying the next entry moves the lower end of the window up. */
  lemma ReplayStep(log: seq<Patch>, image: seq<Byte>, i: nat, n: nat)
    requires Fuzzy(log, image, i, n) && i < |log|
    ensures Fuzzy(log, Pwrite(image, log[i]), i + 1, Max(n, i + 1))
  {
    var w := log[i];
    assert Torn(w, |w.data|) == w;
    TornLength(log, image, i, n, |w.data|);
    var next, lo, hi := Pwrite(image, w), i + 1, Max(n, i + 1);
    forall p: nat ensures Between(log, next, lo, hi, p) {
      ReplayByte(log, image, i, n, p);
    }
  }

  /**
    A snapshot labelled i, however its bytes are spread over indices i..n, becomes
    exactly the file after n once entries i+1..n are replayed over it.
  */
  lemma {:induction false} FuzzyReplay(log: seq<Patch>, image: seq<Byte>, i: nat, n: nat)
    requires Fuzzy(log, image, i, n)
    ensures FileAfter(image, log[i..n]) == FileAt(log, n)
    decreases n - i
  {
    if i == n {
      FuzzyExact(log, image, n);
    } else {
      ReplayStep(log, image, i, n);
      FuzzyReplay(log, Pwrite(image, log[i]), i + 1, n);
      assert log[i..n] == [log[i]] + log[i + 1..n];
      FileAfterConcat(image, [log[i]], log[i + 1..n]);
      assert FileAfter(image, [log[i]]) == Pwrite(image, log[i]);
    }
  }

  lemma {:induction false} AppendKeepsFuzzy(log: seq<Patch>, w: Patch, image: seq<Byte>, i: nat, n: nat)
    requires Fuzzy(log, image, i, n)
    ensures Fuzzy(log + [w], image, i, n)
  {
    assert forall k :: 0 <= k <= |log| ==> (log + [w])[..k] == log[..k];
    forall p: nat ensures Between(log + [w], image, i, n, p) {
      assert Between(log, image, i, n, p);
      var k :| i <= k <= n && ByteAt(image, p) == ByteAt(FileAt(log, k), p);
      assert FileAt(log + [w], k) == FileAt(log, k);
    }
  }
}
