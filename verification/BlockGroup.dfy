/**
  The replica group of example/block/server.cc.

  Every replica applies the committed writes to one local file. Snapshots are hard
  links to that file, so a snapshot keeps changing after it was taken, and a peer
  copies it chunk by chunk while it changes. A write at a negative offset goes to the
  position of the file descriptor, which is lost whenever the file is reopened.
*/
module BlockGroup {
  import opened Wrappers
  import opened Bytes
  import opened BlockFile

  // ----- The replica group

  /** A snapshot is a name for a file, labelled with the index of the last entry it must contain. */
  datatype Snapshot = Snapshot(index: nat, inode: nat)

  /**
    A snapshot file being copied from a peer, front to back, while the peer may go
    on writing to it; `eof` once a read came up against the end of the file.
  */
  datatype Incoming = Incoming(peer: nat, inode: nat, index: nat, bytes: seq<Byte>, eof: bool)

  /**
    One replica: the files on its disk by inode, the inode behind the data path, the
    position of its descriptor, the latest snapshot, the label of a snapshot being
    saved, a download in progress, the number of applied entries, whether it is
    running, and the largest file its file system allows.
  */
  datatype Replica = Replica(files: map<nat, seq<Byte>>, data: nat, pos: nat, snapshot: Option<Snapshot>,
                             saving: Option<nat>, incoming: Option<Incoming>, applied: nat, running: bool, limit: nat)

  /** The committed log and the replicas of the group. */
  datatype Group = Group(log: seq<Write>, replicas: map<nat, Replica>)

  datatype Step =
    | Commit(write: Write)
    | ApplyNext(id: nat, parts: seq<nat>)
    | FailWrite(id: nat, parts: seq<nat>)
    | BeginSave(id: nat)
    | LinkSave(id: nat)
    | StartDownload(id: nat, peer: nat)
    | Fetch(id: nat, count: nat, size: nat)
    | FinishDownload(id: nat, inode: nat)
    | Crash(id: nat)
    | Restart(id: nat)

  function Fresh(limit: nat): Replica {
    Replica(map[0 := []], 0, 0, None, None, None, 0, true, limit)
  }

  ghost predicate Initial(s: Group) {
    s.log == [] && forall id :: id in s.replicas ==> s.replicas[id] == Fresh(s.replicas[id].limit)
  }

  /** Raft only replaces a snapshot by one that is at least as new. */
  predicate NotOlder(r: Replica, index: nat) {
    r.snapshot.Some? ==> r.snapshot.value.index <= index
  }

  predicate Enabled(s: Group, step: Step) {
    step.Commit? ||
    (step.id in s.replicas && LocallyEnabled(s, step, s.replicas[step.id]))
  }

  /** A running replica with an entry to apply. */
  predicate HasNext(s: Group, r: Replica) {
    r.running && r.applied < |s.log| && r.data in r.files
  }

  function Opened(r: Replica): Handle
    requires r.data in r.files
  {
    Handle(r.files[r.data], r.pos)
  }

  /** file_pwrite with the next entry, driven by the sizes the system writes. */
  function Tried(s: Group, r: Replica, parts: seq<nat>): Replica
    requires HasNext(s, r)
  {
    var h := Attempt(Opened(r), s.log[r.applied], parts, r.limit);
    r.(files := r.files[r.data := h.file], pos := h.pos)
  }

  predicate LocallyEnabled(s: Group, step: Step, r: Replica)
    requires !step.Commit?
  {
    match step
    case ApplyNext(_, parts) => HasNext(s, r) && Completes(Opened(r), s.log[r.applied], parts, r.limit)
    // A refused write, a disk error or a crash in the middle: part of the data may be in the file.
    case FailWrite(_, _) => HasNext(s, r)
    case BeginSave(_) => r.running
    case LinkSave(_) => r.running && r.saving.Some? && NotOlder(r, r.saving.value)
    case StartDownload(_, peer) => peer in s.replicas && s.replicas[peer].snapshot.Some?
    // What was read must fit the copy; the peer's file may have grown by the time its size is taken.
    case Fetch(_, n, size) =>
      && r.incoming.Some? && !r.incoming.value.eof
      && var d := r.incoming.value;
      && d.peer in s.replicas && d.inode in s.replicas[d.peer].files
      && var file := s.replicas[d.peer].files[d.inode];
      && |d.bytes| <= |file| <= size && |Fetched(d, file, n, size).bytes| <= r.limit
    // However much the peer has written since the last read.
    case FinishDownload(_, inode) =>
      && r.incoming.Some? && r.incoming.value.eof
      && inode !in r.files && NotOlder(r, r.incoming.value.index)
    case Crash(_) => true
    case Restart(_) => true
  }

  /**
    One read of at most n bytes: it has reached the end if it got less, or if the
    size taken after it is where it stopped.
  */
  function Fetched(d: Incoming, file: seq<Byte>, n: nat, size: nat): Incoming
    requires |d.bytes| <= |file|
  {
    var end := if |d.bytes| + n < |file| then |d.bytes| + n else |file|;
    d.(bytes := d.bytes + file[|d.bytes|..end], eof := end < |d.bytes| + n || size == end)
  }

  /** What a step does to the replica that takes it. */
  function Moved(s: Group, step: Step, r: Replica): Replica
    requires !step.Commit? && LocallyEnabled(s, step, r)
  {
    match step
    case ApplyNext(_, parts) => Tried(s, r, parts).(applied := r.applied + 1)
    case FailWrite(_, parts) => Tried(s, r, parts).(running := false)
    // The label is fixed here; the fiber that links the file runs later, while entries are applied.
    case BeginSave(_) => r.(saving := Some(r.applied))
    // A hard link: the snapshot names the very file that goes on changing.
    case LinkSave(_) => r.(snapshot := Some(Snapshot(r.saving.value, r.data)), saving := None)
    case StartDownload(_, peer) =>
      var p := s.replicas[peer].snapshot.value;
      r.(incoming := Some(Incoming(peer, p.inode, p.index, [], false)))
    case Fetch(_, n, size) =>
      var d := r.incoming.value;
      r.(incoming := Some(Fetched(d, s.replicas[d.peer].files[d.inode], n, size)))
    case FinishDownload(_, inode) =>
      var d := r.incoming.value;
      r.(files := r.files[inode := d.bytes], snapshot := Some(Snapshot(d.index, inode)), incoming := None)
    case Crash(_) => r.(running := false)
    // Loading a snapshot links its file back as the data file; without one the old data file is reopened.
    case Restart(_) =>
      var reopened := r.(pos := 0, saving := None, running := true);
      if r.snapshot.None? then reopened.(applied := 0)
      else reopened.(data := r.snapshot.value.inode, applied := r.snapshot.value.index)
  }

  function Next(s: Group, step: Step): Group
    requires Enabled(s, step)
  {
    if step.Commit? then s.(log := s.log + [step.write])
    else s.(replicas := s.replicas[step.id := Moved(s, step, s.replicas[step.id])])
  }

  ghost predicate Follows(s: Group, t: Group) {
    exists step :: Enabled(s, step) && t == Next(s, step)
  }

  ghost predicate IsRun(states: seq<Group>) {
    && states != []
    && Initial(states[0])
    && (forall j, k {:trigger Follows(states[j], states[k])} ::
          0 <= j && k == j + 1 < |states| ==> Follows(states[j], states[k]))
  }

  lemma StepTaken(states: seq<Group>, k: nat) returns (step: Step)
    requires IsRun(states) && 0 < k < |states|
    ensures Enabled(states[k - 1], step) && states[k] == Next(states[k - 1], step)
  {
    assert Follows(states[k - 1], states[k]);
    step :| Enabled(states[k - 1], step) && states[k] == Next(states[k - 1], step);
  }

  // ----- Logs on which replicas agree

  /**
    At most one non-empty write at a negative offset, and that one no longer than its
    offset is negative, so that all of it goes to the position of the descriptor.
  */
  ghost predicate Harmless(log: seq<Write>) {
    && (forall i, j :: 0 <= i < j < |log| ==> !(Negative(log[i]) && Negative(log[j])))
    && (forall j :: 0 <= j < |log| && Negative(log[j]) ==> |log[j].data| <= 0 - log[j].offset as int)
  }

  lemma HarmlessPrefix(log: seq<Write>, n: nat)
    requires Harmless(log) && n <= |log|
    ensures Harmless(log[..n])
  {
  }

  /** A descriptor that is not at the start has had a write at a negative offset. */
  ghost predicate PosSound(log: seq<Write>, r: Replica) {
    r.running && r.pos != 0 ==> exists j :: 0 <= j < r.applied && j < |log| && Negative(log[j])
  }

  // ----- The invariant of the group

  /** A file of a replica contains at least the entries up to i. */
  ghost predicate Holds(log: seq<Patch>, r: Replica, inode: nat, i: nat) {
    && inode in r.files
    && (if inode == r.data then i <= r.applied else Fuzzy(log, r.files[inode], i, |log|))
  }

  /** The data file is fuzzy from the applied index on, the snapshot holds what its label says. */
  ghost predicate ReplicaSound(log: seq<Patch>, r: Replica) {
    && r.data in r.files
    && Fuzzy(log, r.files[r.data], r.applied, |log|)
    && (r.saving.Some? ==> r.saving.value <= r.applied)
    && (r.snapshot.Some? ==> Holds(log, r, r.snapshot.value.inode, r.snapshot.value.index))
  }

  /** Every byte copied so far is as of some index from the label on, and a complete copy is long enough. */
  ghost predicate CopiedSound(log: seq<Patch>, d: Incoming) {
    && d.index <= |log|
    && |d.bytes| <= |FileAt(log, |log|)|
    && (forall p: nat :: p < |d.bytes| ==> Between(log, d.bytes, d.index, |log|, p))
    && (d.eof ==> |FileAt(log, d.index)| <= |d.bytes|)
  }

  /** A download reads a file that holds what its label says, from a peer that has not fallen back behind it. */
  ghost predicate DownloadSound(s: Group, d: Incoming) {
    && CopiedSound(Patches(s.log), d)
    && d.peer in s.replicas
    && var q := s.replicas[d.peer];
    && Holds(Patches(s.log), q, d.inode, d.index)
    && q.snapshot.Some? && d.index <= q.snapshot.value.index
  }

  ghost predicate Sound(s: Group) {
    && (forall id :: id in s.replicas ==> PosSound(s.log, s.replicas[id]))
    && (forall id :: id in s.replicas ==> ReplicaSound(Patches(s.log), s.replicas[id]))
    && (forall id :: id in s.replicas && s.replicas[id].incoming.Some? ==>
          DownloadSound(s, s.replicas[id].incoming.value))
  }

  lemma HoldsIsFuzzy(log: seq<Patch>, r: Replica, inode: nat, i: nat)
    requires ReplicaSound(log, r) && Holds(log, r, inode, i)
    ensures Fuzzy(log, r.files[inode], i, |log|)
  {
    if inode == r.data {
      FuzzyWeaken(log, r.files[r.data], r.applied, |log|, i, |log|);
    }
  }

  lemma InitialSound(s: Group)
    requires Initial(s)
    ensures Sound(s)
  {
  }

  lemma CommitKeepsFuzzy(log: seq<Patch>, w: Patch, image: seq<Byte>, i: nat)
    requires Fuzzy(log, image, i, |log|)
    ensures Fuzzy(log + [w], image, i, |log + [w]|)
  {
    AppendKeepsFuzzy(log, w, image, i, |log|);
    FuzzyWeaken(log + [w], image, i, |log|, i, |log| + 1);
  }

  lemma CommitKeepsHolds(log: seq<Patch>, w: Patch, r: Replica, inode: nat, i: nat)
    requires Holds(log, r, inode, i)
    ensures Holds(log + [w], r, inode, i)
  {
    if inode != r.data {
      CommitKeepsFuzzy(log, w, r.files[inode], i);
    }
  }

  lemma CommitKeepsReplica(log: seq<Patch>, w: Patch, r: Replica)
    requires ReplicaSound(log, r)
    ensures ReplicaSound(log + [w], r)
  {
    CommitKeepsFuzzy(log, w, r.files[r.data], r.applied);
    if r.snapshot.Some? {
      CommitKeepsHolds(log, w, r, r.snapshot.value.inode, r.snapshot.value.index);
    }
  }

  lemma CommitKeepsCopied(log: seq<Patch>, w: Patch, d: Incoming)
    requires CopiedSound(log, d)
    ensures CopiedSound(log + [w], d)
  {
    var next := log + [w];
    LengthGrows(next, |log|, |next|);
    assert forall k :: 0 <= k <= |log| ==> next[..k] == log[..k];
    var n := |next|;
    forall p: nat | p < |d.bytes| ensures Between(next, d.bytes, d.index, n, p) {
      assert Between(log, d.bytes, d.index, |log|, p);
      var k :| d.index <= k <= |log| && ByteAt(d.bytes, p) == ByteAt(FileAt(log, k), p);
      assert FileAt(next, k) == FileAt(log, k);
    }
  }

  lemma PatchesMore(log: seq<Write>, w: Write)
    ensures Patches(log + [w]) == Patches(log) + [Plain(w)]
  {
  }

  lemma CommitKeepsPos(log: seq<Write>, w: Write, r: Replica)
    requires PosSound(log, r)
    ensures PosSound(log + [w], r)
  {
    if r.running && r.pos != 0 {
      var j :| 0 <= j < r.applied && j < |log| && Negative(log[j]);
      assert Negative((log + [w])[j]);
    }
  }

  lemma CommitKeepsSound(s: Group, w: Write)
    requires Sound(s)
    ensures Sound(Next(s, Commit(w)))
  {
    var t, log, p := Next(s, Commit(w)), Patches(s.log), Plain(w);
    PatchesMore(s.log, w);
    forall id | id in t.replicas ensures PosSound(t.log, t.replicas[id]) {
      CommitKeepsPos(s.log, w, s.replicas[id]);
    }
    forall id | id in t.replicas ensures ReplicaSound(Patches(t.log), t.replicas[id]) {
      CommitKeepsReplica(log, p, s.replicas[id]);
    }
    forall id | id in t.replicas && t.replicas[id].incoming.Some?
      ensures DownloadSound(t, t.replicas[id].incoming.value)
    {
      var d := s.replicas[id].incoming.value;
      CommitKeepsCopied(log, p, d);
      CommitKeepsHolds(log, p, s.replicas[d.peer], d.inode, d.index);
    }
  }

  /** A finished download is a fuzzy image. */
  lemma FinishedIsFuzzy(log: seq<Patch>, d: Incoming)
    requires CopiedSound(log, d) && d.eof
    ensures Fuzzy(log, d.bytes, d.index, |log|)
  {
    var n := |log|;
    forall p: nat ensures Between(log, d.bytes, d.index, n, p) {
      if p >= |d.bytes| {
        assert ByteAt(FileAt(log, d.index), p) == 0 == ByteAt(d.bytes, p);
      }
    }
  }

  /** On a harmless log the next entry, if it goes to the position of the descriptor, finds it at the start. */
  lemma NextFromStart(s: Group, r: Replica)
    requires Harmless(s.log) && PosSound(s.log, r) && HasNext(s, r) && Negative(s.log[r.applied])
    ensures r.pos == 0 && Straight(Start(Opened(r), s.log[r.applied]))
  {
  }

  /** So applying it is patching the file, and failing in it is leaving part of the patch. */
  lemma TriedIsPatch(s: Group, r: Replica, parts: seq<nat>) returns (m: nat)
    requires Harmless(s.log) && PosSound(s.log, r) && HasNext(s, r)
    ensures var w := Patches(s.log)[r.applied];
            && m <= |w.data| && Tried(s, r, parts).files == r.files[r.data := Pwrite(r.files[r.data], Torn(w, m))]
            && (Completes(Opened(r), s.log[r.applied], parts, r.limit) ==> Torn(w, m) == w)
  {
    if Negative(s.log[r.applied]) {
      NextFromStart(s, r);
    }
    m := PlainAttempt(Opened(r), s.log[r.applied], parts, r.limit);
  }

  lemma AppliedSound(s: Group, r: Replica, parts: seq<nat>)
    requires Harmless(s.log) && PosSound(s.log, r) && ReplicaSound(Patches(s.log), r) && HasNext(s, r)
    requires Completes(Opened(r), s.log[r.applied], parts, r.limit)
    ensures ReplicaSound(Patches(s.log), Tried(s, r, parts).(applied := r.applied + 1))
  {
    var m := TriedIsPatch(s, r, parts);
    ReplayStep(Patches(s.log), r.files[r.data], r.applied, |s.log|);
  }

  lemma FailedSound(s: Group, r: Replica, parts: seq<nat>)
    requires Harmless(s.log) && PosSound(s.log, r) && ReplicaSound(Patches(s.log), r) && HasNext(s, r)
    ensures ReplicaSound(Patches(s.log), Tried(s, r, parts).(running := false))
  {
    var m := TriedIsPatch(s, r, parts);
    TornStaysFuzzy(Patches(s.log), r.files[r.data], r.applied, |s.log|, m);
  }

  lemma AppliedKeepsPos(s: Group, r: Replica, parts: seq<nat>)
    requires PosSound(s.log, r) && HasNext(s, r)
    ensures PosSound(s.log, Tried(s, r, parts).(applied := r.applied + 1))
  {
    var w := s.log[r.applied];
    if !Negative(w) {
      PosStays(Start(Opened(r), w), parts, r.limit);
    }
  }

  lemma MovedPos(s: Group, step: Step)
    requires Sound(s) && Enabled(s, step) && !step.Commit?
    ensures PosSound(s.log, Moved(s, step, s.replicas[step.id]))
  {
    if step.ApplyNext? {
      AppliedKeepsPos(s, s.replicas[step.id], step.parts);
    }
  }

  /** The replica that takes a step stays sound. */
  lemma MovedSound(s: Group, step: Step)
    requires Sound(s) && Harmless(s.log) && Enabled(s, step) && !step.Commit?
    ensures ReplicaSound(Patches(s.log), Moved(s, step, s.replicas[step.id]))
  {
    var r, n, log := s.replicas[step.id], |s.log|, Patches(s.log);
    match step
    case ApplyNext(_, parts) => AppliedSound(s, r, parts);
    case FailWrite(_, parts) => FailedSound(s, r, parts);
    case FinishDownload(_, _) => FinishedIsFuzzy(log, r.incoming.value);
    case Restart(_) =>
      if r.snapshot.Some? {
        HoldsIsFuzzy(log, r, r.snapshot.value.inode, r.snapshot.value.index);
      } else {
        FuzzyWeaken(log, r.files[r.data], r.applied, n, 0, n);
      }
    case _ =>
  }

  /** A file that a peer's download depends on still holds its label after the owner's step. */
  lemma MovedHolds(s: Group, step: Step, inode: nat, i: nat)
    requires Sound(s) && Enabled(s, step) && !step.Commit?
    requires Holds(Patches(s.log), s.replicas[step.id], inode, i)
    requires s.replicas[step.id].snapshot.Some? && i <= s.replicas[step.id].snapshot.value.index
    ensures var t := Moved(s, step, s.replicas[step.id]);
            Holds(Patches(s.log), t, inode, i) && t.snapshot.Some? && i <= t.snapshot.value.index
  {
    var r := s.replicas[step.id];
    if step.Restart? && inode == r.data {
      HoldsIsFuzzy(Patches(s.log), r, inode, i);
    }
  }

  lemma FetchKeepsCopied(s: Group, d: Incoming, n: nat, size: nat)
    requires DownloadSound(s, d) && ReplicaSound(Patches(s.log), s.replicas[d.peer])
    requires |d.bytes| <= |s.replicas[d.peer].files[d.inode]| <= size
    ensures CopiedSound(Patches(s.log), Fetched(d, s.replicas[d.peer].files[d.inode], n, size))
  {
    var file := s.replicas[d.peer].files[d.inode];
    HoldsIsFuzzy(Patches(s.log), s.replicas[d.peer], d.inode, d.index);
    var bytes, m, log := Fetched(d, file, n, size).bytes, |s.log|, Patches(s.log);
    forall p: nat | p < |bytes| ensures Between(log, bytes, d.index, m, p) {
      if p < |d.bytes| {
        assert Between(log, d.bytes, d.index, m, p);
      } else {
        assert bytes[p] == file[p];
        assert Between(log, file, d.index, m, p);
      }
    }
  }

  /** What is copied so far is sound after any step. */
  lemma StepKeepsCopied(s: Group, step: Step, id: nat)
    requires Sound(s) && Enabled(s, step) && !step.Commit? && id in s.replicas
    requires Next(s, step).replicas[id].incoming.Some?
    ensures CopiedSound(Patches(s.log), Next(s, step).replicas[id].incoming.value)
  {
    if step.id == id && step.Fetch? {
      FetchStepKeepsCopied(s, id, step.count, step.size);
    } else if step.id == id && step.StartDownload? {
      EmptyCopySound(s, step.peer);
    } else {
      assert DownloadSound(s, s.replicas[id].incoming.value);
    }
  }

  lemma EmptyCopySound(s: Group, peer: nat)
    requires Sound(s) && peer in s.replicas && s.replicas[peer].snapshot.Some?
    ensures var p := s.replicas[peer].snapshot.value;
            CopiedSound(Patches(s.log), Incoming(peer, p.inode, p.index, [], false))
  {
  }

  lemma FetchStepKeepsCopied(s: Group, id: nat, n: nat, size: nat)
    requires Sound(s) && Enabled(s, Fetch(id, n, size))
    ensures CopiedSound(Patches(s.log), Moved(s, Fetch(id, n, size), s.replicas[id]).incoming.value)
  {
    var d := s.replicas[id].incoming.value;
    assert DownloadSound(s, d);
    FetchKeepsCopied(s, d, n, size);
  }

  /** Before the step, the peer's file held the label of any download that is in progress after it. */
  lemma SourceHolds(s: Group, step: Step, id: nat)
    requires Sound(s) && Enabled(s, step) && !step.Commit? && id in s.replicas
    requires Next(s, step).replicas[id].incoming.Some?
    ensures var d := Next(s, step).replicas[id].incoming.value;
            && d.peer in s.replicas
            && var q := s.replicas[d.peer];
            Holds(Patches(s.log), q, d.inode, d.index) && q.snapshot.Some? && d.index <= q.snapshot.value.index
  {
    if step.StartDownload? && step.id == id {
      assert ReplicaSound(Patches(s.log), s.replicas[step.peer]);
    } else {
      assert DownloadSound(s, s.replicas[id].incoming.value);
    }
  }

  /** A download of any replica stays sound, whoever steps. */
  lemma StepKeepsDownload(s: Group, step: Step, id: nat)
    requires Sound(s) && Enabled(s, step) && !step.Commit? && id in s.replicas
    requires Next(s, step).replicas[id].incoming.Some?
    ensures DownloadSound(Next(s, step), Next(s, step).replicas[id].incoming.value)
  {
    var d := Next(s, step).replicas[id].incoming.value;
    StepKeepsCopied(s, step, id);
    SourceHolds(s, step, id);
    if d.peer == step.id {
      MovedHolds(s, step, d.inode, d.index);
    }
  }

  lemma StepKeepsSound(s: Group, step: Step)
    requires Sound(s) && Harmless(s.log) && Enabled(s, step)
    ensures Sound(Next(s, step))
  {
    if step.Commit? {
      CommitKeepsSound(s, step.write);
    } else {
      var t := Next(s, step);
      MovedPos(s, step);
      MovedSound(s, step);
      forall id | id in t.replicas && t.replicas[id].incoming.Some?
        ensures DownloadSound(t, t.replicas[id].incoming.value)
      {
        StepKeepsDownload(s, step, id);
      }
    }
  }

  lemma LogGrows(s: Group, step: Step)
    requires Enabled(s, step)
    ensures s.log <= Next(s, step).log
  {
  }

  lemma {:induction false} RunKeepsSound(states: seq<Group>, k: nat)
    requires IsRun(states) && k < |states| && Harmless(states[k].log)
    ensures Sound(states[k])
  {
    if k == 0 {
      InitialSound(states[0]);
    } else {
      var step := StepTaken(states, k);
      LogGrows(states[k - 1], step);
      HarmlessPrefix(states[k].log, |states[k - 1].log|);
      RunKeepsSound(states, k - 1);
      StepKeepsSound(states[k - 1], step);
    }
  }

  /**
    In every run of the group with a harmless log, whatever was cut into pieces,
    snapshotted, downloaded, torn, crashed and replayed: a replica that has applied
    the whole committed log holds exactly the disk of that log.
  */
  lemma CaughtUpReplicaIsExact(states: seq<Group>, k: nat, id: nat)
    requires IsRun(states) && k < |states| && id in states[k].replicas && Harmless(states[k].log)
    requires states[k].replicas[id].applied == |states[k].log|
    ensures var log, r := Patches(states[k].log), states[k].replicas[id];
            && r.data in r.files
            && r.files[r.data] == FileAt(log, |log|)
            && forall p: nat :: ByteAt(r.files[r.data], p) == Disk(log, p)
  {
    var log, r := Patches(states[k].log), states[k].replicas[id];
    RunKeepsSound(states, k);
    FuzzyExact(log, r.files[r.data], |log|);
    assert log[..|log|] == log;
    forall p: nat ensures ByteAt(r.files[r.data], p) == Disk(log, p) {
      FileIsDisk(log, p);
    }
  }

  /** Replaying what a replica has not applied yet always leads to that disk. */
  lemma ReplayCatchesUp(states: seq<Group>, k: nat, id: nat)
    requires IsRun(states) && k < |states| && id in states[k].replicas && Harmless(states[k].log)
    ensures var log, r := Patches(states[k].log), states[k].replicas[id];
            r.data in r.files && r.applied <= |log| &&
            FileAfter(r.files[r.data], log[r.applied..]) == FileAt(log, |log|)
  {
    var log, r := Patches(states[k].log), states[k].replicas[id];
    RunKeepsSound(states, k);
    FuzzyReplay(log, r.files[r.data], r.applied, |log|);
    assert log[r.applied..|log|] == log[r.applied..];
  }

  // ----- What holds on every log

  /** A file of this length can contain the first i entries. */
  ghost predicate LongEnough(log: seq<Write>, i: nat, length: nat) {
    i <= |log| && forall j :: 0 <= j < i ==> Acceptable(log[j], length)
  }

  /** Every file is within the limit, and as long as its label says. */
  ghost predicate ReplicaKept(log: seq<Write>, r: Replica) {
    && r.data in r.files
    && (forall inode :: inode in r.files ==> |r.files[inode]| <= r.limit)
    && LongEnough(log, r.applied, |r.files[r.data]|)
    && (r.saving.Some? ==> r.saving.value <= r.applied)
    && (r.snapshot.Some? ==>
          && r.snapshot.value.inode in r.files
          && LongEnough(log, r.snapshot.value.index, |r.files[r.snapshot.value.inode]|))
    && (r.incoming.Some? ==>
          && |r.incoming.value.bytes| <= r.limit
          && (r.incoming.value.eof ==> LongEnough(log, r.incoming.value.index, |r.incoming.value.bytes|)))
  }

  ghost predicate DownloadKept(s: Group, d: Incoming) {
    && d.peer in s.replicas
    && d.inode in s.replicas[d.peer].files
    && LongEnough(s.log, d.index, |s.replicas[d.peer].files[d.inode]|)
  }

  ghost predicate Kept(s: Group) {
    && (forall id :: id in s.replicas ==> ReplicaKept(s.log, s.replicas[id]))
    && (forall id :: id in s.replicas && s.replicas[id].incoming.Some? ==>
          DownloadKept(s, s.replicas[id].incoming.value))
  }

  lemma LongerIsLongEnough(log: seq<Write>, i: nat, length: nat, longer: nat)
    requires LongEnough(log, i, length) && length <= longer
    ensures LongEnough(log, i, longer)
  {
  }

  lemma LongEnoughAfterCommit(log: seq<Write>, w: Write, i: nat, length: nat)
    requires LongEnough(log, i, length)
    ensures LongEnough(log + [w], i, length)
  {
  }

  lemma CommitKeepsReplicaKept(log: seq<Write>, w: Write, r: Replica)
    requires ReplicaKept(log, r)
    ensures ReplicaKept(log + [w], r)
  {
    LongEnoughAfterCommit(log, w, r.applied, |r.files[r.data]|);
    if r.snapshot.Some? {
      LongEnoughAfterCommit(log, w, r.snapshot.value.index, |r.files[r.snapshot.value.inode]|);
    }
    if r.incoming.Some? && r.incoming.value.eof {
      LongEnoughAfterCommit(log, w, r.incoming.value.index, |r.incoming.value.bytes|);
    }
  }

  lemma TriedLength(s: Group, r: Replica, parts: seq<nat>)
    requires HasNext(s, r) && |r.files[r.data]| <= r.limit
    ensures var t, w := Tried(s, r, parts), s.log[r.applied];
            && |r.files[r.data]| <= |t.files[r.data]| <= r.limit
            && (Completes(Opened(r), w, parts, r.limit) ==> Acceptable(w, |t.files[r.data]|))
  {
    AttemptLength(Opened(r), s.log[r.applied], parts, r.limit);
  }

  /** No step shortens or removes a file. */
  lemma FilesGrow(s: Group, step: Step, inode: nat)
    requires Kept(s) && Enabled(s, step) && !step.Commit? && inode in s.replicas[step.id].files
    ensures var r, t := s.replicas[step.id], Moved(s, step, s.replicas[step.id]);
            inode in t.files && |r.files[inode]| <= |t.files[inode]|
  {
    if step.ApplyNext? || step.FailWrite? {
      TriedLength(s, s.replicas[step.id], step.parts);
    }
  }

  lemma TriedKept(s: Group, r: Replica, parts: seq<nat>)
    requires ReplicaKept(s.log, r) && HasNext(s, r)
    ensures ReplicaKept(s.log, Tried(s, r, parts))
    ensures Completes(Opened(r), s.log[r.applied], parts, r.limit) ==>
              LongEnough(s.log, r.applied + 1, |Tried(s, r, parts).files[r.data]|)
  {
    var t := Tried(s, r, parts);
    TriedLength(s, r, parts);
    LongerIsLongEnough(s.log, r.applied, |r.files[r.data]|, |t.files[r.data]|);
  }

  lemma FetchKept(s: Group, id: nat, n: nat, size: nat)
    requires Kept(s) && Enabled(s, Fetch(id, n, size))
    ensures ReplicaKept(s.log, Moved(s, Fetch(id, n, size), s.replicas[id]))
  {
    var r := s.replicas[id];
    var d := r.incoming.value;
    assert ReplicaKept(s.log, r) && DownloadKept(s, d);
    var e := Fetched(d, s.replicas[d.peer].files[d.inode], n, size);
    if e.eof {
      LongerIsLongEnough(s.log, d.index, |s.replicas[d.peer].files[d.inode]|, |e.bytes|);
    }
  }

  lemma MovedKept(s: Group, step: Step)
    requires Kept(s) && Enabled(s, step) && !step.Commit?
    ensures ReplicaKept(s.log, Moved(s, step, s.replicas[step.id]))
  {
    var r := s.replicas[step.id];
    assert ReplicaKept(s.log, r);
    match step
    case ApplyNext(_, parts) => TriedKept(s, r, parts);
    case FailWrite(_, parts) => TriedKept(s, r, parts);
    case Fetch(_, n, size) => FetchKept(s, step.id, n, size);
    case _ =>
  }

  /** Before the step, the peer's file was long enough for any download that is in progress after it. */
  lemma SourceKept(s: Group, step: Step, id: nat)
    requires Kept(s) && Enabled(s, step) && !step.Commit? && id in s.replicas
    requires Next(s, step).replicas[id].incoming.Some?
    ensures DownloadKept(s, Next(s, step).replicas[id].incoming.value)
  {
    if step.StartDownload? && step.id == id {
      assert ReplicaKept(s.log, s.replicas[step.peer]);
    } else {
      assert DownloadKept(s, s.replicas[id].incoming.value);
    }
  }

  lemma StepKeepsDownloadKept(s: Group, step: Step, id: nat)
    requires Kept(s) && Enabled(s, step) && !step.Commit? && id in s.replicas
    requires Next(s, step).replicas[id].incoming.Some?
    ensures DownloadKept(Next(s, step), Next(s, step).replicas[id].incoming.value)
  {
    var d := Next(s, step).replicas[id].incoming.value;
    SourceKept(s, step, id);
    if d.peer == step.id {
      FilesGrow(s, step, d.inode);
      var r, t := s.replicas[step.id], Moved(s, step, s.replicas[step.id]);
      LongerIsLongEnough(s.log, d.index, |r.files[d.inode]|, |t.files[d.inode]|);
    }
  }

  lemma CommitKeepsKept(s: Group, w: Write)
    requires Kept(s)
    ensures Kept(Next(s, Commit(w)))
  {
    var t := Next(s, Commit(w));
    forall id | id in t.replicas ensures ReplicaKept(t.log, t.replicas[id]) {
      CommitKeepsReplicaKept(s.log, w, s.replicas[id]);
    }
    forall id | id in t.replicas && t.replicas[id].incoming.Some?
      ensures DownloadKept(t, t.replicas[id].incoming.value)
    {
      var d := s.replicas[id].incoming.value;
      assert DownloadKept(s, d);
      LongEnoughAfterCommit(s.log, w, d.index, |s.replicas[d.peer].files[d.inode]|);
    }
  }

  lemma StepKeepsKept(s: Group, step: Step)
    requires Kept(s) && Enabled(s, step)
    ensures Kept(Next(s, step))
  {
    if step.Commit? {
      CommitKeepsKept(s, step.write);
    } else {
      var t := Next(s, step);
      MovedKept(s, step);
      forall id | id in t.replicas && t.replicas[id].incoming.Some?
        ensures DownloadKept(t, t.replicas[id].incoming.value)
      {
        StepKeepsDownloadKept(s, step, id);
      }
    }
  }

  lemma {:induction false} RunKeepsKept(states: seq<Group>, k: nat)
    requires IsRun(states) && k < |states|
    ensures Kept(states[k])
  {
    if k > 0 {
      var step := StepTaken(states, k);
      RunKeepsKept(states, k - 1);
      StepKeepsKept(states[k - 1], step);
    }
  }

  // ----- Writes past the limit

  /** What a file within the limit contains is acceptable under the limit. */
  lemma ContainedIsAcceptable(log: seq<Write>, i: nat, length: nat, limit: nat, j: nat)
    requires LongEnough(log, i, length) && length <= limit && j < |log| && !Acceptable(log[j], limit)
    ensures i <= j
  {
  }

  /** A replica stays in front of the first entry it refuses, in what it applies, saves and installs. */
  lemma StopsAtRefused(states: seq<Group>, k: nat, id: nat, j: nat)
    requires IsRun(states) && k < |states| && id in states[k].replicas
    requires j < |states[k].log| && !Acceptable(states[k].log[j], states[k].replicas[id].limit)
    ensures var r := states[k].replicas[id];
            && r.applied <= j
            && (r.saving.Some? ==> r.saving.value <= j)
            && (r.snapshot.Some? ==> r.snapshot.value.index <= j)
            && (r.incoming.Some? && r.incoming.value.eof ==> r.incoming.value.index <= j)
  {
    RunKeepsKept(states, k);
    var log, r := states[k].log, states[k].replicas[id];
    assert ReplicaKept(log, r);
    ContainedIsAcceptable(log, r.applied, |r.files[r.data]|, r.limit, j);
    if r.snapshot.Some? {
      ContainedIsAcceptable(log, r.snapshot.value.index, |r.files[r.snapshot.value.inode]|, r.limit, j);
    }
    if r.incoming.Some? && r.incoming.value.eof {
      ContainedIsAcceptable(log, r.incoming.value.index, |r.incoming.value.bytes|, r.limit, j);
    }
  }

  lemma RunNext(states: seq<Group>, step: Step)
    requires IsRun(states) && Enabled(states[|states| - 1], step)
    ensures IsRun(states + [Next(states[|states| - 1], step)])
  {
    var n := |states|;
    var longer := states + [Next(states[n - 1], step)];
    assert Follows(states[n - 1], longer[n]);
    forall j, k | 0 <= j && k == j + 1 < |longer| ensures Follows(longer[j], longer[k]) {
      if k < n {
        assert Follows(states[j], states[k]);
      }
    }
  }

  lemma ExtendRun(states: seq<Group>, step: Step) returns (longer: seq<Group>)
    requires IsRun(states) && Enabled(states[|states| - 1], step)
    ensures IsRun(longer) && longer[|longer| - 1] == Next(states[|states| - 1], step)
  {
    longer := states + [Next(states[|states| - 1], step)];
    RunNext(states, step);
  }

  /** The file and index a replica starts from: those of its snapshot, without one its old file from the beginning. */
  predicate StartsFrom(r: Replica, t: Replica) {
    && t.running && t.pos == 0 && t.files == r.files
    && if r.snapshot.Some? then t.data == r.snapshot.value.inode && t.applied == r.snapshot.value.index
       else t.data == r.data && t.applied == 0
  }

  /** At any point of any run a replica can restart, and then starts from there. */
  lemma RestartLoads(states: seq<Group>, id: nat) returns (longer: seq<Group>)
    requires IsRun(states) && id in states[|states| - 1].replicas
    ensures IsRun(longer)
    ensures var s, t := states[|states| - 1], longer[|longer| - 1];
            t.log == s.log && id in t.replicas && StartsFrom(s.replicas[id], t.replicas[id])
  {
    longer := ExtendRun(states, Restart(id));
  }

  /** A snapshot of another replica that is not older and fits can be copied. */
  predicate CanInstall(s: Group, id: nat, peer: nat) {
    && id in s.replicas && peer in s.replicas && id != peer
    && var r, q := s.replicas[id], s.replicas[peer];
    && q.snapshot.Some? && NotOlder(r, q.snapshot.value.index) && q.snapshot.value.inode in q.files
    && |q.files[q.snapshot.value.inode]| <= r.limit
  }

  /** Copied in one read that meets the end of the file. */
  lemma CopyWhole(states: seq<Group>, id: nat, peer: nat) returns (longer: seq<Group>)
    requires IsRun(states) && CanInstall(states[|states| - 1], id, peer)
    ensures IsRun(longer)
    ensures var s, t := states[|states| - 1], longer[|longer| - 1]; var p := s.replicas[peer].snapshot.value;
            var d := Incoming(peer, p.inode, p.index, s.replicas[peer].files[p.inode], true);
            t == s.(replicas := s.replicas[id := s.replicas[id].(incoming := Some(d))])
  {
    var s := states[|states| - 1];
    var p := s.replicas[peer].snapshot.value;
    var file := s.replicas[peer].files[p.inode];
    longer := ExtendRun(states, StartDownload(id, peer));
    longer := ExtendRun(longer, Fetch(id, |file|, |file|));
    assert file[0..|file|] == file && [] + file == file;
    var t := longer[|longer| - 1];
    var d := Incoming(peer, p.inode, p.index, file, true);
    assert t.replicas == s.replicas[id := s.replicas[id].(incoming := Some(d))];
  }

  /** So a replica can take over the file and the index of a snapshot of another, at any point of any run. */
  lemma SnapshotInstalls(states: seq<Group>, id: nat, peer: nat, inode: nat) returns (longer: seq<Group>)
    requires IsRun(states) && CanInstall(states[|states| - 1], id, peer)
    requires inode !in states[|states| - 1].replicas[id].files
    ensures IsRun(longer)
    ensures var s, t := states[|states| - 1], longer[|longer| - 1];
            && t.log == s.log && id in t.replicas
            && var q, r := s.replicas[peer], t.replicas[id];
            && r.running && r.pos == 0 && r.data in r.files
            && r.files[r.data] == q.files[q.snapshot.value.inode] && r.applied == q.snapshot.value.index
  {
    longer := CopyWhole(states, id, peer);
    longer := ExtendRun(longer, FinishDownload(id, inode));
    longer := ExtendRun(longer, Restart(id));
  }

  /** A continuation without further commits after which the replica has applied the whole log. */
  ghost predicate CatchesUp(states: seq<Group>, more: seq<Group>, id: nat) {
    && states != [] && IsRun(states + more)
    && var s, t := states[|states| - 1], (states + more)[|states + more| - 1];
    && t.log == s.log && id in t.replicas && t.replicas[id].applied == |s.log|
  }

  /** A running replica that has just opened its file, and whose file system accepts the whole log. */
  ghost predicate Ready(s: Group, id: nat) {
    && id in s.replicas
    && var r := s.replicas[id];
    && r.running && r.pos == 0 && r.data in r.files && NotOlder(r, r.applied)
    && r.applied <= |s.log| && LongEnough(s.log, |s.log|, r.limit)
  }

  /** Apply one entry, save a snapshot and load it, which puts the descriptor back to the start. */
  lemma ApplyAndReopen(states: seq<Group>, id: nat) returns (more: seq<Group>)
    requires IsRun(states) && Ready(states[|states| - 1], id)
    requires states[|states| - 1].replicas[id].applied < |states[|states| - 1].log|
    ensures |more| == 4 && IsRun(states + more) && Ready(more[3], id) && more[3].log == states[|states| - 1].log
    ensures more[3].replicas[id].applied == states[|states| - 1].replicas[id].applied + 1
  {
    var s := states[|states| - 1];
    var w, r := s.log[s.replicas[id].applied], s.replicas[id];
    AcceptableCompletes(Opened(r), w, r.limit);
    var apply := ApplyNext(id, FittingParts(w, r.limit));
    var t1 := Next(s, apply);
    RunNext(states, apply);
    var t2 := Next(t1, BeginSave(id));
    RunNext(states + [t1], BeginSave(id));
    var t3 := Next(t2, LinkSave(id));
    RunNext(states + [t1] + [t2], LinkSave(id));
    var t4 := Next(t3, Restart(id));
    RunNext(states + [t1] + [t2] + [t3], Restart(id));
    more := [t1, t2, t3, t4];
    assert states + [t1] + [t2] + [t3] + [t4] == states + more;
  }

  lemma {:induction false} ApplyRest(states: seq<Group>, id: nat) returns (more: seq<Group>)
    requires IsRun(states) && Ready(states[|states| - 1], id)
    ensures CatchesUp(states, more, id)
    decreases |states[|states| - 1].log| - states[|states| - 1].replicas[id].applied
  {
    var s := states[|states| - 1];
    if s.replicas[id].applied == |s.log| {
      more := [];
      assert states + more == states;
    } else {
      var first := ApplyAndReopen(states, id);
      var rest := ApplyRest(states + first, id);
      more := first + rest;
      assert states + more == states + first + rest;
    }
  }

  /** The limit of a replica never changes. */
  lemma {:induction false} SameLimit(states: seq<Group>, j: nat, k: nat, id: nat)
    requires IsRun(states) && j <= k < |states| && id in states[j].replicas
    ensures id in states[k].replicas && states[k].replicas[id].limit == states[j].replicas[id].limit
    decreases k
  {
    if j < k {
      SameLimit(states, j, k - 1, id);
      var step := StepTaken(states, k);
    }
  }

  lemma CaughtUpAcceptsAll(states: seq<Group>, more: seq<Group>, id: nat)
    requires CatchesUp(states, more, id) && id in states[|states| - 1].replicas
    ensures LongEnough(states[|states| - 1].log, |states[|states| - 1].log|, states[|states| - 1].replicas[id].limit)
  {
    var all, n := states + more, |states|;
    SameLimit(all, n - 1, |all| - 1, id);
    RunKeepsKept(all, |all| - 1);
    var s, t := states[n - 1], all[|all| - 1];
    var r := t.replicas[id];
    assert all[n - 1] == s && ReplicaKept(t.log, r);
    LongerIsLongEnough(t.log, r.applied, |r.files[r.data]|, r.limit);
  }

  lemma RestartAndApply(states: seq<Group>, id: nat) returns (more: seq<Group>)
    requires IsRun(states) && id in states[|states| - 1].replicas
    requires LongEnough(states[|states| - 1].log, |states[|states| - 1].log|, states[|states| - 1].replicas[id].limit)
    ensures CatchesUp(states, more, id)
  {
    var s := states[|states| - 1];
    RunKeepsKept(states, |states| - 1);
    assert ReplicaKept(s.log, s.replicas[id]);
    var t := Next(s, Restart(id));
    RunNext(states, Restart(id));
    var rest := ApplyRest(states + [t], id);
    more := [t] + rest;
    assert states + more == states + [t] + rest;
  }

  /**
    Writes past the largest file some replica can have are proposed unchecked and
    then refused. At any point of any run, a replica can still catch up with the log
    if and only if every write in it is acceptable under its limit.
  */
  lemma CatchesUpIff(states: seq<Group>, id: nat)
    requires IsRun(states) && id in states[|states| - 1].replicas
    ensures var s := states[|states| - 1];
            (exists more :: CatchesUp(states, more, id)) <==>
            forall j :: 0 <= j < |s.log| ==> Acceptable(s.log[j], s.replicas[id].limit)
  {
    var s := states[|states| - 1];
    if more :| CatchesUp(states, more, id) {
      CaughtUpAcceptsAll(states, more, id);
    }
    if forall j :: 0 <= j < |s.log| ==> Acceptable(s.log[j], s.replicas[id].limit) {
      var more := RestartAndApply(states, id);
    }
  }

  /** One write that a replica cannot accept, committed at any point of any run, stops it for good. */
  lemma RefusedWriteStops(states: seq<Group>, w: Write, id: nat)
    requires IsRun(states) && id in states[|states| - 1].replicas
    requires !Acceptable(w, states[|states| - 1].replicas[id].limit)
    ensures var longer := states + [Next(states[|states| - 1], Commit(w))];
            IsRun(longer) && !exists more :: CatchesUp(longer, more, id)
  {
    var s := states[|states| - 1];
    var t := Next(s, Commit(w));
    RunNext(states, Commit(w));
    assert t.log[|s.log|] == w;
    CatchesUpIff(states + [t], id);
  }

  // ----- Which logs replicas agree on

  /** Replicas that have applied the whole log hold the same file. */
  ghost predicate Agree(s: Group) {
    forall a, b :: a in s.replicas && b in s.replicas ==> AgreeOn(s, s.replicas[a], s.replicas[b])
  }

  predicate AgreeOn(s: Group, a: Replica, b: Replica) {
    a.applied == |s.log| && b.applied == |s.log| && a.data in a.files && b.data in b.files ==>
      a.files[a.data] == b.files[b.data]
  }

  /** Offsets and lengths of a beginning of the log, whatever the data. */
  ghost predicate Shaped(ws: seq<Write>, log: seq<Write>) {
    && |ws| <= |log|
    && (forall i :: 0 <= i < |ws| ==> ws[i].offset == log[i].offset && |ws[i].data| == |log[i].data|)
  }

  /** In every run that has come to a log of this shape, or to a beginning of it, replicas agree. */
  ghost predicate AlwaysAgree(log: seq<Write>) {
    forall states: seq<Group> :: IsRun(states) && Shaped(states[|states| - 1].log, log) ==> Agree(states[|states| - 1])
  }

  lemma ShapedIsHarmless(ws: seq<Write>, log: seq<Write>)
    requires Shaped(ws, log) && Harmless(log)
    ensures Harmless(ws)
  {
    forall i | 0 <= i < |ws| ensures Negative(ws[i]) == Negative(log[i]) {
    }
  }

  lemma HarmlessAgrees(states: seq<Group>, log: seq<Write>)
    requires IsRun(states) && Shaped(states[|states| - 1].log, log) && Harmless(log)
    ensures Agree(states[|states| - 1])
  {
    var k := |states| - 1;
    var s := states[k];
    ShapedIsHarmless(s.log, log);
    forall a, b | a in s.replicas && b in s.replicas ensures AgreeOn(s, s.replicas[a], s.replicas[b]) {
      if s.replicas[a].applied == |s.log| && s.replicas[b].applied == |s.log| {
        CaughtUpReplicaIsExact(states, k, a);
        CaughtUpReplicaIsExact(states, k, b);
      }
    }
  }

  /** The first entry that makes a log harmful. */
  lemma {:induction false} FirstHarm(log: seq<Write>) returns (j: nat)
    requires !Harmless(log)
    ensures j < |log| && Harmless(log[..j]) && Negative(log[j])
    ensures |log[j].data| > 0 - log[j].offset as int || exists i :: 0 <= i < j && Negative(log[i])
  {
    var n := |log| - 1;
    if Harmless(log[..n]) {
      j := n;
      assert forall i :: 0 <= i < n ==> log[..n][i] == log[i];
    } else {
      j := FirstHarm(log[..n]);
      assert log[..n][..j] == log[..j];
    }
  }

  /** The shape of the log up to entry j with no data but zeros, except for a one at the front of entry j. */
  function Marked(log: seq<Write>, j: nat): (ws: seq<Write>)
    requires j < |log| && log[j].data != []
    ensures |ws| == j + 1 && Shaped(ws, log) && ws[j].data[0] == 1
    ensures forall i, x :: 0 <= i <= j && 0 <= x < |ws[i].data| && (i < j || x > 0) ==> ws[i].data[x] == 0
  {
    seq(j + 1, i requires 0 <= i <= j =>
      Write(log[i].offset, if i == j then [1] + Zeros(|log[i].data| - 1) else Zeros(|log[i].data|)))
  }

  /** Two replicas that have each applied the first k entries in one piece each. */
  function Replayed(ws: seq<Write>, k: nat, limit: nat): Replica
    requires k <= |ws|
  {
    var h := WholeAfter(Handle([], 0), ws[..k]);
    Replica(map[0 := h.file], 0, h.pos, None, None, None, k, true, limit)
  }

  function Pair(log: seq<Write>, a: Replica, b: Replica): Group {
    Group(log, map[0 := a, 1 := b])
  }

  /** Room for every write of the series wherever it goes. */
  ghost predicate Spacious(ws: seq<Write>, limit: nat) {
    && Advance(ws) <= limit
    && (forall i :: 0 <= i < |ws| && ws[i].offset >= 0 ==> ws[i].offset + |ws[i].data| <= limit)
  }

  function Span(ws: seq<Write>): nat {
    if ws == [] then 0
    else
      var w := ws[|ws| - 1];
      Span(ws[..|ws| - 1]) + |w.data| + if w.offset < 0 then 0 else w.offset
  }

  lemma {:induction false} SpanIsSpacious(ws: seq<Write>)
    ensures Spacious(ws, Span(ws))
  {
    if ws != [] {
      var n := |ws| - 1;
      SpanIsSpacious(ws[..n]);
      assert forall i :: 0 <= i < n ==> ws[..n][i] == ws[i];
    }
  }

  lemma {:induction false} AdvanceGrows(ws: seq<Write>, k: nat)
    requires k <= |ws|
    ensures Advance(ws[..k]) <= Advance(ws)
    decreases |ws|
  {
    if k < |ws| {
      AdvanceGrows(ws[..|ws| - 1], k);
      assert ws[..|ws| - 1][..k] == ws[..k];
    } else {
      assert ws[..k] == ws;
    }
  }

  lemma AdvanceNext(ws: seq<Write>, k: nat)
    requires k < |ws|
    ensures Advance(ws[..k + 1]) == Advance(ws[..k]) + if Negative(ws[k]) then |ws[k].data| else 0
    ensures WholeAfter(Handle([], 0), ws[..k + 1]) == Whole(WholeAfter(Handle([], 0), ws[..k]), ws[k])
  {
    assert ws[..k + 1][..k] == ws[..k];
  }

  /** The replica has room for the next entry in one piece. */
  lemma RoomForNext(ws: seq<Write>, k: nat, limit: nat)
    requires Spacious(ws, limit) && k < |ws|
    ensures var h := WholeAfter(Handle([], 0), ws[..k]);
            && h.pos == Advance(ws[..k])
            && (ws[k].data != [] ==> Place(Start(h, ws[k])) + |ws[k].data| <= limit)
  {
    WholeIsPlaced(Handle([], 0), ws[..k]);
    AdvanceNext(ws, k);
    AdvanceGrows(ws, k + 1);
  }

  lemma ApplyWhole(ws: seq<Write>, k: nat, limit: nat)
    requires Spacious(ws, limit) && k < |ws|
    ensures var r, w := Replayed(ws, k, limit), ws[k];
            && Completes(Opened(r), w, [|w.data|], limit)
            && Attempt(Opened(r), w, [|w.data|], limit) == WholeAfter(Handle([], 0), ws[..k + 1])
  {
    RoomForNext(ws, k, limit);
    AdvanceNext(ws, k);
    WholeAttempt(WholeAfter(Handle([], 0), ws[..k]), ws[k], limit);
  }

  lemma {:induction false} CommitAll(ws: seq<Write>, limit: nat) returns (states: seq<Group>)
    ensures IsRun(states) && states[|states| - 1] == Pair(ws, Fresh(limit), Fresh(limit))
  {
    if ws == [] {
      states := [Pair([], Fresh(limit), Fresh(limit))];
    } else {
      var n := |ws| - 1;
      states := CommitAll(ws[..n], limit);
      states := ExtendRun(states, Commit(ws[n]));
      assert ws[..n] + [ws[n]] == ws;
    }
  }

  lemma FreshIsReplayed(ws: seq<Write>, limit: nat)
    ensures Fresh(limit) == Replayed(ws, 0, limit)
  {
  }

  /** One more entry in one piece, as a step of a replica. */
  lemma ReplayedNext(s: Group, ws: seq<Write>, k: nat, limit: nat)
    requires s.log == ws && Spacious(ws, limit) && k < |ws|
    ensures HasNext(s, Replayed(ws, k, limit))
    ensures Completes(Opened(Replayed(ws, k, limit)), ws[k], [|ws[k].data|], limit)
    ensures Tried(s, Replayed(ws, k, limit), [|ws[k].data|]).(applied := k + 1) == Replayed(ws, k + 1, limit)
  {
    ApplyWhole(ws, k, limit);
    var r, h := Replayed(ws, k, limit), WholeAfter(Handle([], 0), ws[..k + 1]);
    assert r.files[0 := h.file] == map[0 := h.file];
  }

  lemma ApplyFirst(ws: seq<Write>, k: nat, limit: nat, other: Replica)
    requires Spacious(ws, limit) && k < |ws|
    ensures var s, step := Pair(ws, Replayed(ws, k, limit), other), ApplyNext(0, [|ws[k].data|]);
            Enabled(s, step) && Next(s, step) == Pair(ws, Replayed(ws, k + 1, limit), other)
  {
    var s, now := Pair(ws, Replayed(ws, k, limit), other), Replayed(ws, k + 1, limit);
    ReplayedNext(s, ws, k, limit);
    assert s.replicas[0 := now] == Pair(ws, now, other).replicas;
  }

  lemma ApplySecond(ws: seq<Write>, k: nat, limit: nat, other: Replica)
    requires Spacious(ws, limit) && k < |ws|
    ensures var s, step := Pair(ws, other, Replayed(ws, k, limit)), ApplyNext(1, [|ws[k].data|]);
            Enabled(s, step) && Next(s, step) == Pair(ws, other, Replayed(ws, k + 1, limit))
  {
    var s, now := Pair(ws, other, Replayed(ws, k, limit)), Replayed(ws, k + 1, limit);
    ReplayedNext(s, ws, k, limit);
    assert s.replicas[1 := now] == Pair(ws, other, now).replicas;
  }

  lemma BothNext(before: seq<Group>, ws: seq<Write>, k: nat, limit: nat) returns (states: seq<Group>)
    requires Spacious(ws, limit) && k < |ws| && IsRun(before)
    requires before[|before| - 1] == Pair(ws, Replayed(ws, k, limit), Replayed(ws, k, limit))
    ensures IsRun(states)
    ensures states[|states| - 1] == Pair(ws, Replayed(ws, k + 1, limit), Replayed(ws, k + 1, limit))
  {
    ApplyFirst(ws, k, limit, Replayed(ws, k, limit));
    states := ExtendRun(before, ApplyNext(0, [|ws[k].data|]));
    ApplySecond(ws, k, limit, Replayed(ws, k + 1, limit));
    states := ExtendRun(states, ApplyNext(1, [|ws[k].data|]));
  }

  lemma {:induction false} ApplyBoth(ws: seq<Write>, k: nat, limit: nat) returns (states: seq<Group>)
    requires Spacious(ws, limit) && k <= |ws|
    ensures IsRun(states) && states[|states| - 1] == Pair(ws, Replayed(ws, k, limit), Replayed(ws, k, limit))
  {
    if k == 0 {
      states := CommitAll(ws, limit);
      FreshIsReplayed(ws, limit);
    } else {
      states := ApplyBoth(ws, k - 1, limit);
      states := BothNext(states, ws, k - 1, limit);
    }
  }

  // ----- The byte at the start of the file

  /** As long as all data is zero, so is the byte at the start. */
  lemma {:induction false} ZerosLeaveZero(ws: seq<Write>)
    requires forall i, x :: 0 <= i < |ws| && 0 <= x < |ws[i].data| ==> ws[i].data[x] == 0
    ensures ByteAt(WholeAfter(Handle([], 0), ws).file, 0) == 0
  {
    if ws != [] {
      var n := |ws| - 1;
      ZerosLeaveZero(ws[..n]);
      var h := WholeAfter(Handle([], 0), ws[..n]);
      PwriteByte(h.file, Patch(Place(Start(h, ws[n])), ws[n].data), 0);
    }
  }

  lemma {:induction false} AdvancedByNegative(ws: seq<Write>, i: nat)
    requires i < |ws| && Negative(ws[i])
    ensures Advance(ws) > 0
  {
    if i < |ws| - 1 {
      AdvancedByNegative(ws[..|ws| - 1], i);
    }
  }

  lemma {:induction false} NotAdvanced(ws: seq<Write>)
    requires forall i :: 0 <= i < |ws| ==> !Negative(ws[i])
    ensures Advance(ws) == 0
  {
    if ws != [] {
      NotAdvanced(ws[..|ws| - 1]);
    }
  }

  // ----- Two runs of the same entries that differ

  /** Saving and loading a snapshot puts the descriptor of replica 1 back to the start. */
  lemma Reopened(before: seq<Group>, ws: seq<Write>, r: Replica, limit: nat) returns (states: seq<Group>)
    requires IsRun(before) && before[|before| - 1] == Pair(ws, r, r)
    requires r.running && r.snapshot == None && r.saving == None && r.data in r.files
    ensures IsRun(states)
    ensures states[|states| - 1] == Pair(ws, r, r.(pos := 0, snapshot := Some(Snapshot(r.applied, r.data))))
  {
    states := ExtendRun(before, BeginSave(1));
    states := ExtendRun(states, LinkSave(1));
    states := ExtendRun(states, Restart(1));
    var t := states[|states| - 1];
    assert t.replicas == Pair(ws, r, r.(pos := 0, snapshot := Some(Snapshot(r.applied, r.data)))).replicas;
  }

  /** Replica 1 of a pair applies the last entry, driven by these sizes. */
  lemma LastOnSecond(ws: seq<Write>, a: Replica, b: Replica, parts: seq<nat>)
    requires b.running && b.applied < |ws| && b.data in b.files && Completes(Opened(b), ws[b.applied], parts, b.limit)
    ensures var s, step := Pair(ws, a, b), ApplyNext(1, parts);
            Enabled(s, step) && Next(s, step) == Pair(ws, a, Tried(s, b, parts).(applied := b.applied + 1))
  {
    var s := Pair(ws, a, b);
    var c := Tried(s, b, parts).(applied := b.applied + 1);
    assert s.replicas[1 := c] == Pair(ws, a, c).replicas;
  }

  /** Two caught-up replicas that differ in the byte at the start. */
  lemma DifferAtStart(ws: seq<Write>, a: Replica, b: Replica)
    requires a.applied == |ws| && b.applied == |ws| && a.data in a.files && b.data in b.files
    requires ByteAt(a.files[a.data], 0) != ByteAt(b.files[b.data], 0)
    ensures !Agree(Pair(ws, a, b))
  {
    var s := Pair(ws, a, b);
    assert !AgreeOn(s, s.replicas[0], s.replicas[1]);
  }

  /** The byte at the start after entry j, in one piece, at the position of the descriptor or at the start. */
  lemma SecondBytes(ws: seq<Write>, j: nat, i: nat)
    requires |ws| == j + 1 && i < j && Negative(ws[i]) && Negative(ws[j])
    requires ws[j].data[0] == 1 && forall k, x :: 0 <= k < j && 0 <= x < |ws[k].data| ==> ws[k].data[x] == 0
    ensures ByteAt(WholeAfter(Handle([], 0), ws[..j + 1]).file, 0) == 0
    ensures ByteAt(Whole(Handle(WholeAfter(Handle([], 0), ws[..j]).file, 0), ws[j]).file, 0) == 1
  {
    var h := WholeAfter(Handle([], 0), ws[..j]);
    ZerosLeaveZero(ws[..j]);
    AdvancedByNegative(ws[..j], i);
    WholeIsPlaced(Handle([], 0), ws[..j]);
    AdvanceNext(ws, j);
    PwriteByte(h.file, Patch(h.pos, ws[j].data), 0);
    PwriteByte(h.file, Patch(0, ws[j].data), 0);
  }

  /** A second write at a negative offset: one replica goes on, the other has reopened its file in between. */
  lemma SecondDiverges(ws: seq<Write>, j: nat, i: nat, limit: nat) returns (states: seq<Group>)
    requires Spacious(ws, limit) && |ws| == j + 1 && i < j && Negative(ws[i]) && Negative(ws[j])
    requires ws[j].data[0] == 1 && forall k, x :: 0 <= k < j && 0 <= x < |ws[k].data| ==> ws[k].data[x] == 0
    ensures IsRun(states) && states[|states| - 1].log == ws && !Agree(states[|states| - 1])
  {
    var was, now, parts := Replayed(ws, j, limit), Replayed(ws, j + 1, limit), [|ws[j].data|];
    var back, low := was.(pos := 0, snapshot := Some(Snapshot(j, 0))), Handle(was.files[0], 0);
    states := ApplyBoth(ws, j, limit);
    states := Reopened(states, ws, was, limit);
    ApplyFirst(ws, j, limit, back);
    states := ExtendRun(states, ApplyNext(0, parts));
    RoomForNext(ws, j, limit);
    WholeAttempt(low, ws[j], limit);
    LastOnSecond(ws, now, back, parts);
    states := ExtendRun(states, ApplyNext(1, parts));
    SecondBytes(ws, j, i);
    DifferAtStart(ws, now, Tried(Pair(ws, now, back), back, parts).(applied := j + 1));
  }

  /** A write longer than its offset is negative: one replica writes it in one piece, the other in two. */
  lemma CutDiverges(ws: seq<Write>, j: nat, limit: nat) returns (states: seq<Group>)
    requires Spacious(ws, limit) && |ws| == j + 1 && Negative(ws[j]) && |ws[j].data| > 0 - ws[j].offset as int
    requires forall i :: 0 <= i < j ==> !Negative(ws[i])
    requires ws[j].data[0] == 1 && forall x :: 0 < x < |ws[j].data| ==> ws[j].data[x] == 0
    ensures IsRun(states) && states[|states| - 1].log == ws && !Agree(states[|states| - 1])
  {
    var was, now, w := Replayed(ws, j, limit), Replayed(ws, j + 1, limit), ws[j];
    var h, m := WholeAfter(Handle([], 0), ws[..j]), 0 - w.offset as int;
    var parts := [m, |w.data| - m];
    NotAdvanced(ws[..j]);
    RoomForNext(ws, j, limit);
    states := ApplyBoth(ws, j, limit);
    ApplyFirst(ws, j, limit, was);
    states := ExtendRun(states, ApplyNext(0, [|w.data|]));
    TwoPieces(h, w, m, limit);
    LastOnSecond(ws, now, was, parts);
    states := ExtendRun(states, ApplyNext(1, parts));
    AdvanceNext(ws, j);
    PwriteByte(h.file, Patch(0, w.data), 0);
    DifferAtStart(ws, now, Tried(Pair(ws, now, was), was, parts).(applied := j + 1));
  }

  /** In two pieces, the second goes to the start of the file. */
  lemma TwoPieces(h: Handle, w: Write, m: nat, limit: nat)
    requires h.pos == 0 && Negative(w) && m == 0 - w.offset as int && m < |w.data| <= limit
    requires forall x :: 0 < x < |w.data| ==> w.data[x] == 0
    ensures Completes(h, w, [m, |w.data| - m], limit)
    ensures ByteAt(Attempt(h, w, [m, |w.data| - m], limit).file, 0) == 0
  {
    var p, n := Start(h, w), |w.data| - m;
    var q := Onward(p, m);
    TwoParts(p, m, n, limit);
    var first, second := Patch(0, w.data[..m]), Patch(0, q.rest[..n]);
    assert Cuts(p, [m, n], limit) == [first, second];
    FileAfterMore(h.file, [first], second);
    FileAfterOne(h.file, first);
    assert [first] + [second] == [first, second];
    PwriteByte(Pwrite(h.file, first), second, 0);
  }

  /** For every harmful log there is data of its shape, and a run, with which two caught-up replicas differ. */
  lemma HarmfulDiverges(log: seq<Write>) returns (states: seq<Group>)
    requires !Harmless(log)
    ensures IsRun(states) && Shaped(states[|states| - 1].log, log) && !Agree(states[|states| - 1])
  {
    var j := FirstHarm(log);
    var ws := Marked(log, j);
    SpanIsSpacious(ws);
    assert forall i :: 0 <= i <= j ==> Negative(ws[i]) == Negative(log[i]);
    if i :| 0 <= i < j && Negative(ws[i]) {
      states := SecondDiverges(ws, j, i, Span(ws));
    } else {
      states := CutDiverges(ws, j, Span(ws));
    }
  }

  /**
    Offsets and lengths decide: replicas that have applied the whole log agree in
    every run, whatever the data, if and only if the log is harmless.
  */
  lemma AlwaysAgreeIff(log: seq<Write>)
    ensures AlwaysAgree(log) <==> Harmless(log)
  {
    if Harmless(log) {
      forall states: seq<Group> | IsRun(states) && Shaped(states[|states| - 1].log, log)
        ensures Agree(states[|states| - 1])
      {
        HarmlessAgrees(states, log);
      }
    } else {
      var states := HarmfulDiverges(log);
    }
  }

  // ----- The shortest such log

  lemma OneByteEach(a: Byte, b: Byte)
    ensures var ws := [Write(-1, [a]), Write(-1, [b])];
            && Spacious(ws, 2) && WholeAfter(Handle([], 0), ws[..1]) == Handle([a], 1)
            && Whole(Handle([a], 1), ws[1]).file == [a, b] && Whole(Handle([a], 0), ws[1]).file == [b]
  {
    var ws := [Write(-1, [a]), Write(-1, [b])];
    assert ws[..2] == ws && ws[..1] == [ws[0]] && ws[..1][..0] == [];
    assert Advance(ws[..1]) == 1;
    assert WholeAfter(Handle([], 0), ws[..1][..0]) == Handle([], 0);
    assert Whole(Handle([], 0), ws[0]) == Handle([a], 1);
  }

  /** Two single bytes at offset -1: one replica ends with both, the other, restarted in between, with the second. */
  lemma TwoBytesDiverge(a: Byte, b: Byte) returns (states: seq<Group>)
    ensures IsRun(states)
    ensures var t := states[|states| - 1];
            && t.log == [Write(-1, [a]), Write(-1, [b])] && 0 in t.replicas && 1 in t.replicas
            && t.replicas[0].applied == 2 && t.replicas[1].applied == 2
            && t.replicas[0].data == 0 && t.replicas[0].files == map[0 := [a, b]]
            && t.replicas[1].data == 0 && t.replicas[1].files == map[0 := [b]]
  {
    var ws := [Write(-1, [a]), Write(-1, [b])];
    OneByteEach(a, b);
    var was, back := Replayed(ws, 1, 2), Replayed(ws, 1, 2).(pos := 0, snapshot := Some(Snapshot(1, 0)));
    states := ApplyBoth(ws, 1, 2);
    states := Reopened(states, ws, was, 2);
    WholeAttempt(Handle([a], 1), ws[1], 2);
    states := ExtendRun(states, ApplyNext(0, [1]));
    WholeAttempt(Handle([a], 0), ws[1], 2);
    states := ExtendRun(states, ApplyNext(1, [1]));
    var t := states[|states| - 1];
    assert t.replicas[0].files == map[0 := [a]][0 := [a, b]] && t.replicas[1].files == map[0 := [a]][0 := [b]];
  }
}
