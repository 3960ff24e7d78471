/** Sending a file in chunks and putting it together again, across interruptions and restarts. */
module FileTransfers {
  import opened Storages
  import opened Messages

  const CHUNK_SIZE := 1024

  datatype Chunk = Chunk(offset: nat, data: Bytes)

  /* ---------- The sender ---------- */

  /** What a stream over `source` yields at `position`: at most 1024 bytes, less only at the end. */
  function ReadAt(source: Bytes, position: nat): (data: Bytes)
    ensures |data| <= CHUNK_SIZE
    ensures position <= |source| ==> position + |data| <= |source| && data == source[position..position + |data|]
    ensures |data| < CHUNK_SIZE <==> position + CHUNK_SIZE > |source|
  {
    if position >= |source| then []
    else source[position..if position + CHUNK_SIZE <= |source| then position + CHUNK_SIZE else |source|]
  }

  /** The chunks a sender produces from `offset` on: full ones, then one that is short or empty. */
  function Chunks(source: Bytes, offset: nat): seq<Chunk>
    decreases if offset <= |source| then |source| - offset else 0
  {
    var data := ReadAt(source, offset);
    [Chunk(offset, data)] + if |data| < CHUNK_SIZE then [] else Chunks(source, offset + |data|)
  }

  function Joined(chunks: seq<Chunk>): Bytes {
    if chunks == [] then [] else chunks[0].data + Joined(chunks[1..])
  }

  /** Every chunk begins where the one before ends. */
  predicate AreContiguous(chunks: seq<Chunk>, offset: nat) {
    chunks == [] || (chunks[0].offset == offset && AreContiguous(chunks[1..], offset + |chunks[0].data|))
  }

  /** The chunks follow each other without gap and add up to the rest of the file; there are `(L - o) / 1024 + 1`. */
  lemma {:induction false} ChunksMakeUpTheFile(source: Bytes, offset: nat)
    requires offset <= |source|
    ensures Joined(Chunks(source, offset)) == source[offset..]
    ensures AreContiguous(Chunks(source, offset), offset)
    ensures |Chunks(source, offset)| == (|source| - offset) / CHUNK_SIZE + 1
    decreases |source| - offset
  {
    var data, chunks := ReadAt(source, offset), Chunks(source, offset);
    var end := offset + |data|;
    if |data| < CHUNK_SIZE {
      assert chunks[1..] == [];
      assert Joined(chunks) == data + [];
    } else {
      ChunksMakeUpTheFile(source, end);
      assert chunks[1..] == Chunks(source, end);
      assert source[offset..] == data + source[end..];
    }
  }

  /** The sending side of a `GetFile` message: an input stream, its failure bit, and what was sent. */
  class FileSender {
    const source: Bytes
    var position: nat
    var streamFailed: bool
    var failed: bool
    var isDone: bool
    var timePoint: nat
    var sent: seq<Chunk>

    /** `handle_request` seeks to the requested offset. */
    constructor (source: Bytes, offset: nat, now: nat)
      ensures this.source == source && position == offset && !streamFailed && sent == []
      ensures !failed && !isDone && timePoint == now + DURATION
    {
      this.source := source;
      position, streamFailed, failed, isDone, timePoint, sent := offset, false, false, false, now + DURATION, [];
    }

    /**
     * `write_file`: reads up to 1024 bytes and sends them; a short read makes it the last.  A failed write ends the
     * message but goes on; a read that fails other than at the end of the file, `readFailed`, sends nothing.
     */
    method WriteFile(writeFailed: bool, readFailed: bool, now: nat)
      modifies this
      ensures failed == (old(failed) || writeFailed || (readFailed && !old(streamFailed)))
      ensures isDone == (old(isDone) || writeFailed || (readFailed && !old(streamFailed)))
      ensures old(streamFailed) || readFailed ==> sent == old(sent) && timePoint == old(timePoint) && streamFailed
      ensures old(streamFailed) ==> position == old(position)
      ensures !old(streamFailed) && !readFailed ==>
                var data := ReadAt(source, old(position));
                && sent == old(sent) + [Chunk(old(position), data)] && timePoint == now + DURATION
                && position == old(position) + |data| && streamFailed == (|data| < CHUNK_SIZE)
    {
      if writeFailed {
        failed := true;
        isDone := true;
      }
      if !streamFailed {
        if readFailed {
          streamFailed := true;
          failed := true;
          isDone := true;
          return;
        }
        var offset := position;
        var buffer := ReadAt(source, position);
        position := position + |buffer|;
        streamFailed := |buffer| < CHUNK_SIZE;
        timePoint := now + DURATION;
        sent := sent + [Chunk(offset, buffer)];
      }
    }

    /** Every completed write calls `write_file` again, until the stream has failed. */
    method SendAll(now: nat)
      requires !streamFailed && sent == []
      modifies this
      ensures sent == Chunks(source, old(position)) && failed == old(failed) && isDone == old(isDone)
    {
      ghost var start := position;
      while !streamFailed
        invariant failed == old(failed) && isDone == old(isDone)
        invariant Chunks(source, start) == sent + if streamFailed then [] else Chunks(source, position)
        decreases !streamFailed, if position <= |source| then |source| - position else 0
      {
        ghost var before, chunk := sent, Chunk(position, ReadAt(source, position));
        ghost var rest := Chunks(source, position)[1..];
        assert Chunks(source, position) == [chunk] + rest;
        assert before + ([chunk] + rest) == before + [chunk] + rest;
        WriteFile(false, false, now);
      }
    }
  }

  /* ---------- The receiver ---------- */

  datatype Progress = Continues | Completed(ok: bool)

  /** `handle_response`: write the chunk; when the file has its full size, finalize it. */
  method HandleChunk(storage: StaticStorage, writer: Writer, info: FileInfo, chunk: Chunk)
    returns (after: Writer, progress: Progress)
    requires writer.name == info.name && info.name in storage.disk
    modifies storage
    ensures after == writer.(position := chunk.offset + |chunk.data|)
    ensures var w := Written(old(storage.View()), info.name, chunk.offset, chunk.data);
            if after.position < info.size then progress == Continues && storage.View() == w
            else progress == Completed(CanFinalize(w, info, storage.sha))
                 && storage.View() == if progress.ok then Finalized(w, info, storage.sha) else w
  {
    after := storage.Write(writer, chunk.offset, chunk.data);
    if after.position < info.size { return after, Continues; }
    var ok := storage.FinalizeFile(info);
    return after, Completed(ok);
  }

  /* ---------- Transfers over any number of interruptions ---------- */

  /** One file being fetched: the receiver's storage and, while connected, its token and the chunks still to come. */
  datatype Transfer = Idle(storage: Contents) | Receiving(storage: Contents, token: nat, coming: seq<Chunk>)

  datatype Step =
    /** Ask for the file, from wherever the last attempt got to. */
    | Begin
    /** The next chunk arrives. */
    | Receive
    /** The connection is lost, or the request times out. */
    | Interrupt
    /** The receiving node restarts. */
    | Reboot(listing: seq<string>)
    /** Anything done to storage for another file. */
    | Elsewhere(op: Op)

  /** An operation that concerns neither the file nor its writer. */
  predicate IsElsewhere(s: Contents, name: string, token: nat, op: Op) {
    match op
    case Create(info) => info.name != name
    case Write(other, number, _, _) => other != name && number != token
    case Close(number) => number != token
    case Finalize(info) => info.name != name
    case Restart(_) => false
  }

  predicate CanStep(t: Transfer, info: FileInfo, step: Step) {
    match step
    case Begin => t.Idle? && CanCreate(t.storage, info)
    case Receive => t.Receiving? && t.coming != [] && info.name in t.storage.disk
    case Interrupt => t.Receiving?
    case Reboot(listing) => IsListing(t.storage, listing)
    case Elsewhere(op) =>
      CanOp(t.storage, op) && IsElsewhere(t.storage, info.name, if t.Receiving? then t.token else t.storage.issued, op)
  }

  /** A chunk reaching the announced size ends the transfer, finalized or not. */
  function DoStep(t: Transfer, info: FileInfo, source: Bytes, sha: Hash, step: Step): Transfer
    requires CanStep(t, info, step)
  {
    match step
    case Begin =>
      Receiving(Created(t.storage, info), t.storage.issued, Chunks(source, Resumed(t.storage, info).offset))
    case Receive =>
      var chunk := t.coming[0];
      var w := Written(t.storage, info.name, chunk.offset, chunk.data);
      if chunk.offset + |chunk.data| < info.size then Receiving(w, t.token, t.coming[1..])
      else
        var done := if CanFinalize(w, info, sha) then Finalized(w, info, sha) else w;
        Idle(done.(blocked := Released(done.blocked, t.token)))
    case Interrupt => Idle(t.storage.(blocked := Released(t.storage.blocked, t.token)))
    case Reboot(listing) => Idle(Restarted(t.storage, listing, sha))
    case Elsewhere(op) => t.(storage := DoOp(t.storage, op, sha))
  }

  /** The file is announced as it is: its size, its hash, and an offset of zero. */
  predicate IsAnnounced(info: FileInfo, source: Bytes, sha: Hash) {
    info.size == |source| && info.sha256sum == sha(source) && info.offset == 0
  }

  /** What there is of the file is a beginning of it, at least as long as recorded; a finished file is all of it. */
  ghost predicate IsFaithful(s: Contents, name: string, source: Bytes) {
    && IsSound(s)
    && (name in s.rows ==> s.disk[name] <= source && s.rows[name].bytesWritten <= |s.disk[name]|)
    && (Exists(s, name) ==> name in s.disk && s.disk[name] == source)
    && (name in s.disk ==> name in s.rows || Exists(s, name))
  }

  /** The chunks to come continue from inside what is already there. */
  ghost predicate IsTransferOk(t: Transfer, info: FileInfo, source: Bytes) {
    && IsFaithful(t.storage, info.name, source)
    && (t.Receiving? ==>
          && Token(info.name, t.token, true) in t.storage.blocked && info.name in t.storage.rows
          && t.coming != [] && t.coming[0].offset <= |t.storage.disk[info.name]|
          && t.coming == Chunks(source, t.coming[0].offset))
  }

  /** Where nothing of the file has been received yet, a transfer of it can start. */
  lemma NewFileIsOk(s: Contents, info: FileInfo, source: Bytes)
    requires IsSound(s) && info.name !in s.disk
    ensures IsTransferOk(Idle(s), info, source)
  {
  }

  lemma WritingExtendsBeginning(content: Bytes, source: Bytes, offset: nat, end: nat)
    requires content <= source && offset <= |content| && offset <= end <= |source|
    ensures var after := Overwritten(content, offset, source[offset..end]);
            after <= source && |after| == if end > |content| then end else |content|
  {
    var after := Overwritten(content, offset, source[offset..end]);
    assert forall i | 0 <= i < |after| :: after[i] == source[i];
  }

  /** A finished file is never being received. */
  lemma NotFinishedWhileBlocked(s: Contents, name: string, token: nat)
    requires IsSound(s) && Token(name, token, true) in s.blocked
    ensures !Exists(s, name) && IsBlocked(s, name) && name in s.rows && name in s.disk
  {
    var i :| 0 <= i < |s.blocked| && s.blocked[i] == Token(name, token, true);
  }

  lemma BeginKeepsOk(t: Transfer, info: FileInfo, source: Bytes, sha: Hash)
    requires IsTransferOk(t, info, source) && IsAnnounced(info, source, sha) && CanStep(t, info, Begin)
    ensures IsTransferOk(DoStep(t, info, source, sha, Begin), info, source)
  {
    CreateKeepsSound(t.storage, info);
    var z := DoStep(t, info, source, sha, Begin);
    assert z.storage.blocked[|t.storage.blocked|] == Token(info.name, z.token, true);
  }

  lemma ReceiveKeepsOk(t: Transfer, info: FileInfo, source: Bytes, sha: Hash)
    requires IsTransferOk(t, info, source) && IsAnnounced(info, source, sha) && CanStep(t, info, Receive)
    ensures IsTransferOk(DoStep(t, info, source, sha, Receive), info, source)
    ensures var z, chunk := DoStep(t, info, source, sha, Receive), t.coming[0];
            if chunk.offset + |chunk.data| < |source| then
              z.Receiving? && |chunk.data| == CHUNK_SIZE && z.coming[0].offset == chunk.offset + CHUNK_SIZE
            else z.Idle? && Exists(z.storage, info.name) && z.storage.disk[info.name] == source
  {
    var name, chunk := info.name, t.coming[0];
    var end := chunk.offset + |chunk.data|;
    NotFinishedWhileBlocked(t.storage, name, t.token);
    assert chunk == Chunks(source, chunk.offset)[0];
    assert chunk.data == source[chunk.offset..end];
    WritingExtendsBeginning(t.storage.disk[name], source, chunk.offset, end);
    var w := Written(t.storage, name, chunk.offset, chunk.data);
    OpKeepsSound(t.storage, Op.Write(name, t.token, chunk.offset, chunk.data), sha);
    if end < |source| {
      assert t.coming[1..] == Chunks(source, end);
    } else {
      assert w.disk[name] == source;
      NotFinishedWhileBlocked(w, name, t.token);
      FinalizeKeepsSound(w, info, sha);
      var done := Finalized(w, info, sha);
      assert done.files[|w.files|].name == name;
      CloseKeepsSound(done, t.token);
    }
  }

  lemma ReleaseKeepsFaithful(s: Contents, name: string, source: Bytes, token: nat)
    requires IsFaithful(s, name, source)
    ensures IsFaithful(s.(blocked := Released(s.blocked, token)), name, source)
  {
    CloseKeepsSound(s, token);
  }

  lemma RestartKeepsFaithful(s: Contents, name: string, source: Bytes, listing: seq<string>, sha: Hash)
    requires IsFaithful(s, name, source) && IsListing(s, listing)
    ensures IsFaithful(Restarted(s, listing, sha), name, source)
    ensures Exists(Restarted(s, listing, sha), name) <==> Exists(s, name)
  {
    RestartKeepsSound(s, listing, sha);
    SyncedFiles(s, listing, sha);
  }

  /** Other files do not touch this one. */
  lemma ElsewhereKeepsFaithful(s: Contents, name: string, source: Bytes, token: nat, op: Op, sha: Hash)
    requires IsFaithful(s, name, source) && CanOp(s, op) && IsElsewhere(s, name, token, op)
    ensures IsFaithful(DoOp(s, op, sha), name, source)
    ensures name in s.disk ==> name in DoOp(s, op, sha).disk && DoOp(s, op, sha).disk[name] == s.disk[name]
    ensures name in s.rows ==> name in DoOp(s, op, sha).rows && DoOp(s, op, sha).rows[name] == s.rows[name]
    ensures Token(name, token, true) in s.blocked ==> Token(name, token, true) in DoOp(s, op, sha).blocked
    ensures Exists(DoOp(s, op, sha), name) == Exists(s, name) && (name in DoOp(s, op, sha).rows ==> name in s.rows)
  {
    OpKeepsSound(s, op, sha);
    var z := DoOp(s, op, sha);
    var kept := Token(name, token, true);
    if kept in s.blocked {
      var i :| 0 <= i < |s.blocked| && s.blocked[i] == kept;
      assert op.Close? ==> z.blocked[i] == kept;
    }
    assert Exists(z, name) == Exists(s, name) by {
      if i :| 0 <= i < |s.files| && s.files[i].name == name { assert z.files[i].name == name; }
    }
  }

  lemma StepKeepsOk(t: Transfer, info: FileInfo, source: Bytes, sha: Hash, step: Step)
    requires IsTransferOk(t, info, source) && IsAnnounced(info, source, sha) && CanStep(t, info, step)
    ensures IsTransferOk(DoStep(t, info, source, sha, step), info, source)
  {
    match step
    case Begin => BeginKeepsOk(t, info, source, sha);
    case Receive => ReceiveKeepsOk(t, info, source, sha);
    case Interrupt => ReleaseKeepsFaithful(t.storage, info.name, source, t.token);
    case Reboot(listing) => RestartKeepsFaithful(t.storage, info.name, source, listing, sha);
    case Elsewhere(op) =>
      ElsewhereKeepsFaithful(t.storage, info.name, source, if t.Receiving? then t.token else t.storage.issued, op, sha);
  }

  predicate CanSteps(t: Transfer, info: FileInfo, source: Bytes, sha: Hash, steps: seq<Step>)
    decreases |steps|
  {
    steps == [] ||
    (CanStep(t, info, steps[0]) && CanSteps(DoStep(t, info, source, sha, steps[0]), info, source, sha, steps[1..]))
  }

  function DoSteps(t: Transfer, info: FileInfo, source: Bytes, sha: Hash, steps: seq<Step>): Transfer
    requires CanSteps(t, info, source, sha, steps)
    decreases |steps|
  {
    if steps == [] then t else DoSteps(DoStep(t, info, source, sha, steps[0]), info, source, sha, steps[1..])
  }

  lemma {:induction false} RunKeepsOk(t: Transfer, info: FileInfo, source: Bytes, sha: Hash, steps: seq<Step>)
    requires IsTransferOk(t, info, source) && IsAnnounced(info, source, sha) && CanSteps(t, info, source, sha, steps)
    ensures IsTransferOk(DoSteps(t, info, source, sha, steps), info, source)
    decreases |steps|
  {
    if steps != [] {
      StepKeepsOk(t, info, source, sha, steps[0]);
      RunKeepsOk(DoStep(t, info, source, sha, steps[0]), info, source, sha, steps[1..]);
    }
  }

  /**
   * Starting where nothing of the file has been received, and however often the transfer is interrupted and resumed:
   * the bytes recorded as written are the source's first bytes, and the file only counts as finished when it is the
   * source.
   */
  lemma TransferRebuildsTheFile(s: Contents, info: FileInfo, source: Bytes, sha: Hash, steps: seq<Step>)
    requires IsSound(s) && info.name !in s.disk
    requires IsAnnounced(info, source, sha) && CanSteps(Idle(s), info, source, sha, steps)
    ensures var z, name := DoSteps(Idle(s), info, source, sha, steps).storage, info.name;
            && (name in z.rows ==>
                  && name in z.disk
                  && var n := z.rows[name].bytesWritten;
                     n <= |source| && n <= |z.disk[name]| && z.disk[name][..n] == source[..n])
            && (Exists(z, name) ==> name in z.disk && z.disk[name] == source)
  {
    NewFileIsOk(s, info, source);
    RunKeepsOk(Idle(s), info, source, sha, steps);
  }

  /* ---------- Resuming ---------- */

  /** Where the last chunk received in a run began; `last` if none was. */
  function LastOffset(t: Transfer, info: FileInfo, source: Bytes, sha: Hash, steps: seq<Step>, last: nat): nat
    requires CanSteps(t, info, source, sha, steps)
    decreases |steps|
  {
    if steps == [] then last
    else
      LastOffset(DoStep(t, info, source, sha, steps[0]), info, source, sha, steps[1..], OffsetAfter(t, steps[0], last))
  }

  function OffsetAfter(t: Transfer, step: Step, last: nat): nat {
    if step.Receive? && t.Receiving? && t.coming != [] then t.coming[0].offset else last
  }

  /** While the file is unfinished the table records `last`, or knows nothing of it and `last` is zero. */
  ghost predicate Records(t: Transfer, name: string, last: nat) {
    && (name in t.storage.rows ==> t.storage.rows[name].bytesWritten == last)
    && (name !in t.storage.rows && !Exists(t.storage, name) ==> last == 0)
    && (t.Receiving? ==> t.coming != [] && last <= t.coming[0].offset)
  }

  lemma BeginRecords(t: Transfer, info: FileInfo, source: Bytes, sha: Hash, last: nat)
    requires IsTransferOk(t, info, source) && IsAnnounced(info, source, sha) && CanStep(t, info, Begin)
    requires Records(t, info.name, last)
    ensures var z := DoStep(t, info, source, sha, Begin);
            Records(z, info.name, last) && z.coming == Chunks(source, last) && z.coming[0].offset == last
  {
    CreatingMeans(t.storage, info, info.name);
  }

  lemma ReceiveRecords(t: Transfer, info: FileInfo, source: Bytes, sha: Hash, last: nat)
    requires IsTransferOk(t, info, source) && IsAnnounced(info, source, sha) && CanStep(t, info, Receive)
    requires Records(t, info.name, last)
    ensures var chunk := t.coming[0];
            last <= chunk.offset && Records(DoStep(t, info, source, sha, Receive), info.name, chunk.offset)
  {
    ReceiveKeepsOk(t, info, source, sha);
  }

  lemma StepRecords(t: Transfer, info: FileInfo, source: Bytes, sha: Hash, step: Step, last: nat)
    requires IsTransferOk(t, info, source) && IsAnnounced(info, source, sha) && CanStep(t, info, step)
    requires Records(t, info.name, last)
    ensures Records(DoStep(t, info, source, sha, step), info.name, OffsetAfter(t, step, last))
    ensures last <= OffsetAfter(t, step, last)
  {
    match step
    case Begin => BeginRecords(t, info, source, sha, last);
    case Receive => ReceiveRecords(t, info, source, sha, last);
    case Interrupt =>
    case Reboot(listing) => RestartKeepsFaithful(t.storage, info.name, source, listing, sha);
    case Elsewhere(op) =>
      ElsewhereKeepsFaithful(t.storage, info.name, source, if t.Receiving? then t.token else t.storage.issued, op, sha);
  }

  /** Over any run the table goes on recording where the last chunk began, and that never falls. */
  lemma {:induction false} RunRecords(
    t: Transfer, info: FileInfo, source: Bytes, sha: Hash, steps: seq<Step>, last: nat)
    requires IsTransferOk(t, info, source) && IsAnnounced(info, source, sha) && CanSteps(t, info, source, sha, steps)
    requires Records(t, info.name, last)
    ensures Records(DoSteps(t, info, source, sha, steps), info.name, LastOffset(t, info, source, sha, steps, last))
    ensures last <= LastOffset(t, info, source, sha, steps, last)
    decreases |steps|
  {
    if steps != [] {
      StepRecords(t, info, source, sha, steps[0], last);
      StepKeepsOk(t, info, source, sha, steps[0]);
      RunRecords(DoStep(t, info, source, sha, steps[0]), info, source, sha, steps[1..], OffsetAfter(t, steps[0], last));
    }
  }

  /** A transfer begun again after any run starts with the chunk received last before, from zero if there was none. */
  lemma ResumesWhereItStopped(s: Contents, info: FileInfo, source: Bytes, sha: Hash, steps: seq<Step>)
    requires IsSound(s) && info.name !in s.disk && IsAnnounced(info, source, sha)
    requires CanSteps(Idle(s), info, source, sha, steps)
    requires CanStep(DoSteps(Idle(s), info, source, sha, steps), info, Begin)
    ensures var z := DoStep(DoSteps(Idle(s), info, source, sha, steps), info, source, sha, Begin);
            var last := LastOffset(Idle(s), info, source, sha, steps, 0);
            z.coming == Chunks(source, last) && z.coming[0].offset == last && IsTransferOk(z, info, source)
  {
    var t := DoSteps(Idle(s), info, source, sha, steps);
    NewFileIsOk(s, info, source);
    RunKeepsOk(Idle(s), info, source, sha, steps);
    RunRecords(Idle(s), info, source, sha, steps, 0);
    BeginRecords(t, info, source, sha, LastOffset(Idle(s), info, source, sha, steps, 0));
    BeginKeepsOk(t, info, source, sha);
  }

  /** An attempt cut short by the connection or by a restart can always be taken up again. */
  lemma InterruptedCanResume(t: Transfer, info: FileInfo, source: Bytes, sha: Hash, step: Step)
    requires IsTransferOk(t, info, source) && t.Receiving? && CanStep(t, info, step)
    requires step.Interrupt? || step.Reboot?
    ensures CanStep(DoStep(t, info, source, sha, step), info, Begin)
  {
    NotFinishedWhileBlocked(t.storage, info.name, t.token);
    match step
    case Interrupt =>
      var r := Released(t.storage.blocked, t.token);
      forall i | 0 <= i < |r| ensures !(r[i].name == info.name && r[i].live) {
        assert t.storage.blocked[i] in t.storage.blocked;
      }
    case Reboot(listing) =>
      RestartKeepsFaithful(t.storage, info.name, source, listing, sha);
      RestartFreesNames(t.storage, listing, sha, info.name);
  }

  /** How many chunks complete a file of which `missing` bytes are left: one even for none. */
  function Needed(missing: nat): nat {
    if missing == 0 then 1 else (missing + CHUNK_SIZE - 1) / CHUNK_SIZE
  }

  lemma ChunksToGo(steps: seq<Step>, missing: nat)
    requires |steps| == Needed(missing)
    ensures if missing > CHUNK_SIZE then |steps[1..]| == Needed(missing - CHUNK_SIZE) else steps[1..] == []
  {
  }

  /** Left alone, a transfer finishes after exactly the chunks it needs. */
  lemma {:induction false} TransferCompletes(t: Transfer, info: FileInfo, source: Bytes, sha: Hash, steps: seq<Step>)
    requires IsTransferOk(t, info, source) && IsAnnounced(info, source, sha) && t.Receiving?
    requires |steps| == Needed(|source| - t.coming[0].offset) && forall step | step in steps :: step == Receive
    ensures CanSteps(t, info, source, sha, steps)
    ensures var z := DoSteps(t, info, source, sha, steps);
            && z.Idle? && Exists(z.storage, info.name)
            && info.name in z.storage.disk && z.storage.disk[info.name] == source
    decreases |steps|
  {
    var offset := t.coming[0].offset;
    NotFinishedWhileBlocked(t.storage, info.name, t.token);
    assert offset <= |source| && t.coming[0] == Chunks(source, offset)[0];
    ReceiveKeepsOk(t, info, source, sha);
    ChunksToGo(steps, |source| - offset);
    assert steps[0] in steps && forall step | step in steps[1..] :: step in steps;
    var z := DoStep(t, info, source, sha, Receive);
    if z.Receiving? {
      TransferCompletes(z, info, source, sha, steps[1..]);
    }
  }

  /** Taken up after any run and left alone, a transfer needs no more chunks than from the last one received on. */
  lemma ResumedTransferCompletes(
    s: Contents, info: FileInfo, source: Bytes, sha: Hash, steps: seq<Step>, rest: seq<Step>)
    requires IsSound(s) && info.name !in s.disk && IsAnnounced(info, source, sha)
    requires CanSteps(Idle(s), info, source, sha, steps)
    requires CanStep(DoSteps(Idle(s), info, source, sha, steps), info, Begin)
    requires LastOffset(Idle(s), info, source, sha, steps, 0) <= |source| ==>
               |rest| == Needed(|source| - LastOffset(Idle(s), info, source, sha, steps, 0))
    requires forall step | step in rest :: step == Receive
    ensures LastOffset(Idle(s), info, source, sha, steps, 0) <= |source|
    ensures var t := DoStep(DoSteps(Idle(s), info, source, sha, steps), info, source, sha, Begin);
            && CanSteps(t, info, source, sha, rest)
            && var z := DoSteps(t, info, source, sha, rest);
               z.Idle? && Exists(z.storage, info.name)
               && info.name in z.storage.disk && z.storage.disk[info.name] == source
  {
    var t := DoStep(DoSteps(Idle(s), info, source, sha, steps), info, source, sha, Begin);
    ResumesWhereItStopped(s, info, source, sha, steps);
    assert t.coming[0].offset <= |t.storage.disk[info.name]| <= |source|;
    TransferCompletes(t, info, source, sha, rest);
  }
}
