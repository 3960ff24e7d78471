/** A node's file storage: finished files, files being received, their writers, and the table of transfers. */
module Storages {
  import opened RoutingTables

  newtype byte = x: int | 0 <= x < 256
  type Bytes = seq<byte>
  type Hash = Bytes -> string

  datatype FileInfo = FileInfo(name: string, sha256sum: string, size: nat, offset: nat)

  /** A row of `file_transfer`. */
  datatype Row = Row(sha256sum: string, size: nat, bytesWritten: nat)

  /** An entry of the blocked files; `live` is its shared token, known to its writer by number. */
  datatype Token = Token(name: string, number: nat, live: bool)

  /** A writer returned by `create_file`: its token, the file it writes, and its put position. */
  datatype Writer = Writer(name: string, token: nat, position: nat)

  /** What storage keeps: files on disk and rows in the database survive a restart, the rest does not. */
  datatype Contents = Contents(
    disk: map<string, Bytes>, rows: map<string, Row>, files: seq<FileInfo>, blocked: seq<Token>, issued: nat)

  predicate Exists(s: Contents, name: string) {
    exists i :: 0 <= i < |s.files| && s.files[i].name == name
  }

  predicate IsBlocked(s: Contents, name: string) {
    exists i :: 0 <= i < |s.blocked| && s.blocked[i].name == name && s.blocked[i].live
  }

  /** The file offset a transfer of `info` starts from: where the last one got to, if there was one. */
  function Resumed(s: Contents, info: FileInfo): FileInfo {
    if info.name in s.rows then info.(offset := s.rows[info.name].bytesWritten) else info
  }

  predicate CanCreate(s: Contents, info: FileInfo) {
    !Exists(s, info.name) && !IsBlocked(s, info.name) && (info.name in s.rows ==> info.name in s.disk)
  }

  /** A file known to the transfer table is reopened as it is, any other is created empty. */
  function Created(s: Contents, info: FileInfo): Contents {
    var r := Resumed(s, info);
    s.(disk := if info.name in s.rows then s.disk else s.disk[info.name := []],
       rows := if info.name in s.rows then s.rows else s.rows[info.name := Row(info.sha256sum, info.size, r.offset)],
       blocked := s.blocked + [Token(info.name, s.issued, true)],
       issued := s.issued + 1)
  }

  /** The file after writing `data` at `offset`: a gap is filled with zero bytes, later bytes stay. */
  function Overwritten(content: Bytes, offset: nat, data: Bytes): Bytes {
    if data == [] then content
    else if offset > |content| then content + seq(offset - |content|, i => 0) + data
    else content[..offset] + data + if offset + |data| < |content| then content[offset + |data|..] else []
  }

  /** `OfstreamWrapper::write`: the table records where the chunk begins. */
  function Written(s: Contents, name: string, offset: nat, data: Bytes): Contents
    requires name in s.disk
  {
    s.(disk := s.disk[name := Overwritten(s.disk[name], offset, data)],
       rows := if name in s.rows then s.rows[name := s.rows[name].(bytesWritten := offset)] else s.rows)
  }

  function Released(blocked: seq<Token>, number: nat): (r: seq<Token>)
    ensures |r| == |blocked|
    ensures forall i | 0 <= i < |r| ::
              r[i] == if blocked[i].number == number then blocked[i].(live := false) else blocked[i]
  {
    seq(|blocked|, i requires 0 <= i < |blocked| =>
      if blocked[i].number == number then blocked[i].(live := false) else blocked[i])
  }

  function Unblocked(blocked: seq<Token>, name: string): (r: seq<Token>)
    ensures forall t :: t in r <==> t in blocked && t.name != name
    ensures |r| <= |blocked|
  {
    if blocked == [] then []
    else if blocked[0].name == name then Unblocked(blocked[1..], name)
    else [blocked[0]] + Unblocked(blocked[1..], name)
  }

  predicate CanFinalize(s: Contents, info: FileInfo, sha: Hash) {
    !Exists(s, info.name) && IsBlocked(s, info.name) && info.name in s.disk && sha(s.disk[info.name]) == info.sha256sum
  }

  function Finalized(s: Contents, info: FileInfo, sha: Hash): Contents
    requires info.name in s.disk
  {
    s.(files := s.files + [FileInfo(info.name, sha(s.disk[info.name]), |s.disk[info.name]|, 0)],
       blocked := Unblocked(s.blocked, info.name),
       rows := s.rows - {info.name})
  }

  /** The finished files found on start: directory entries without a row in the transfer table. */
  function Synced(disk: map<string, Bytes>, rows: map<string, Row>, listing: seq<string>, sha: Hash): seq<FileInfo>
    requires forall name | name in listing :: name in disk
  {
    if listing == [] then []
    else
      var rest := Synced(disk, rows, listing[..|listing| - 1], sha);
      var name := listing[|listing| - 1];
      if name in rows then rest else rest + [FileInfo(name, sha(disk[name]), |disk[name]|, 0)]
  }

  /** A directory listing names every file once, in whatever order. */
  predicate IsListing(s: Contents, listing: seq<string>) {
    && (forall name | name in listing :: name in s.disk) && (forall name | name in s.disk :: name in listing)
    && (forall i, j | 0 <= i < j < |listing| :: listing[i] != listing[j])
  }

  function Restarted(s: Contents, listing: seq<string>, sha: Hash): Contents
    requires IsListing(s, listing)
  {
    s.(files := Synced(s.disk, s.rows, listing, sha), blocked := [])
  }

  /* ---------- The storage object ---------- */

  class StaticStorage {
    const sha: Hash
    var disk: map<string, Bytes>
    var rows: map<string, Row>
    var files: seq<FileInfo>
    var blocked: seq<Token>
    var issued: nat

    function View(): Contents
      reads this
    {
      Contents(disk, rows, files, blocked, issued)
    }

    /** Starting on what an earlier run left on disk. */
    constructor (earlier: Contents, listing: seq<string>, sha: Hash)
      requires IsListing(earlier, listing)
      ensures this.sha == sha && View() == Restarted(earlier, listing, sha)
    {
      this.sha := sha;
      disk, rows, blocked, issued := earlier.disk, earlier.rows, [], earlier.issued;
      files := [];
      new;
      SyncFiles(listing);
    }

    method SyncFiles(listing: seq<string>)
      requires IsListing(View(), listing) && files == []
      modifies this`files
      ensures View() == old(View()).(files := Synced(disk, rows, listing, sha))
    {
      var k := 0;
      while k < |listing|
        invariant 0 <= k <= |listing|
        invariant files == Synced(disk, rows, listing[..k], sha)
      {
        var name := listing[k];
        assert listing[..k + 1][..k] == listing[..k];
        if name !in rows {
          var _ := AddFile(name);
        }
        k := k + 1;
      }
      assert listing[..k] == listing;
    }

    method AddFile(name: string) returns (ok: bool)
      modifies this`files
      ensures ok == (name in disk)
      ensures files == if ok then old(files) + [FileInfo(name, sha(disk[name]), |disk[name]|, 0)] else old(files)
    {
      if name !in disk { return false; }
      files := files + [FileInfo(name, sha(disk[name]), |disk[name]|, 0)];
      return true;
    }

    method ExistsInternal(name: string) returns (found: bool)
      ensures found == Exists(View(), name)
    {
      var i := 0;
      while i < |files|
        invariant 0 <= i <= |files|
        invariant forall j | 0 <= j < i :: files[j].name != name
      {
        if files[i].name == name { return true; }
        i := i + 1;
      }
      return false;
    }

    method IsBlockedInternal(name: string) returns (found: bool)
      ensures found == IsBlocked(View(), name)
    {
      var i := 0;
      while i < |blocked|
        invariant 0 <= i <= |blocked|
        invariant forall j | 0 <= j < i :: !(blocked[j].name == name && blocked[j].live)
      {
        if blocked[i].name == name && blocked[i].live { return true; }
        i := i + 1;
      }
      return false;
    }

    /** A writer positioned at the resumed offset, unless the file is finished, being written, or lost from disk. */
    method CreateFile(info: FileInfo) returns (writer: Option<Writer>, resumed: FileInfo)
      modifies this
      ensures writer.Some? == CanCreate(old(View()), info)
      ensures writer.Some? ==> View() == Created(old(View()), info)
      ensures writer.Some? ==>
                resumed == Resumed(old(View()), info) && writer.value == Writer(info.name, old(issued), resumed.offset)
      ensures writer.None? ==> View() == old(View())
    {
      resumed := info;
      var exists_ := ExistsInternal(info.name);
      var isBlocked := IsBlockedInternal(info.name);
      if exists_ || isBlocked { return None, info; }
      var fileExists := false;
      if info.name in rows {
        fileExists := true;
        resumed := resumed.(offset := rows[info.name].bytesWritten);
      }
      if fileExists {
        if info.name !in disk { return None, resumed; }
      } else {
        disk := disk[info.name := []];
      }
      if info.name !in rows {
        rows := rows[info.name := Row(info.sha256sum, info.size, resumed.offset)];
      }
      writer := Some(Writer(info.name, issued, resumed.offset));
      blocked := blocked + [Token(info.name, issued, true)];
      issued := issued + 1;
    }

    method Write(writer: Writer, offset: nat, data: Bytes) returns (after: Writer)
      requires writer.name in disk
      modifies this
      ensures View() == Written(old(View()), writer.name, offset, data)
      ensures after == writer.(position := offset + |data|)
    {
      disk := disk[writer.name := Overwritten(disk[writer.name], offset, data)];
      if writer.name in rows {
        rows := rows[writer.name := rows[writer.name].(bytesWritten := offset)];
      }
      after := writer.(position := offset + |data|);
    }

    /** The writer's destructor: a token that storage has let go of is left alone. */
    method Close(writer: Writer)
      modifies this
      ensures View() == old(View()).(blocked := Released(old(View()).blocked, writer.token))
    {
      blocked := Released(blocked, writer.token);
    }

    /** Hashing a file that is gone raises an error before anything is changed, which counts as a refusal. */
    method FinalizeFile(info: FileInfo) returns (ok: bool)
      modifies this
      ensures ok == CanFinalize(old(View()), info, sha)
      ensures View() == if ok then Finalized(old(View()), info, sha) else old(View())
    {
      var exists_ := ExistsInternal(info.name);
      if exists_ { return false; }
      var isBlocked := IsBlockedInternal(info.name);
      if !isBlocked { return false; }
      if info.name !in disk { return false; }
      var sum := sha(disk[info.name]);
      if sum != info.sha256sum { return false; }
      blocked := Unblocked(blocked, info.name);
      files := files + [FileInfo(info.name, sum, |disk[info.name]|, 0)];
      rows := rows - {info.name};
      return true;
    }
  }

  /* ---------- The invariant of storage ---------- */

  ghost predicate IsSound(s: Contents) {
    && HasDistinctNames(s.files)
    && (forall i | 0 <= i < |s.files| ::
          s.files[i].name in s.disk && s.files[i].name !in s.rows && s.files[i].offset == 0)
    && (forall name | name in s.rows :: name in s.disk)
    && (forall t | t in s.blocked :: t.number < s.issued && (t.live ==> t.name in s.rows))
    && (forall t, u | t in s.blocked && u in s.blocked ::
          t.number == u.number || (t.name == u.name && t.live && u.live) ==> t == u)
  }

  /** What can happen to storage; `Write` and `Close` are by writers whose token is `number`. */
  datatype Op =
    | Create(info: FileInfo)
    | Write(name: string, number: nat, offset: nat, data: Bytes)
    | Close(number: nat)
    | Finalize(info: FileInfo)
    | Restart(listing: seq<string>)

  predicate CanOp(s: Contents, op: Op) {
    match op
    case Write(name, number, _, _) => Token(name, number, true) in s.blocked && name in s.disk
    case Restart(listing) => IsListing(s, listing)
    case _ => true
  }

  function DoOp(s: Contents, op: Op, sha: Hash): Contents
    requires CanOp(s, op)
  {
    match op
    case Create(info) => if CanCreate(s, info) then Created(s, info) else s
    case Write(name, _, offset, data) => Written(s, name, offset, data)
    case Close(number) => s.(blocked := Released(s.blocked, number))
    case Finalize(info) => if CanFinalize(s, info, sha) then Finalized(s, info, sha) else s
    case Restart(listing) => Restarted(s, listing, sha)
  }

  /** Only listed files without a row count as finished, each with the hash of what is on disk. */
  lemma {:induction false} SyncedFilesAreThere(s: Contents, listing: seq<string>, sha: Hash)
    requires forall name | name in listing :: name in s.disk
    ensures forall f | f in Synced(s.disk, s.rows, listing, sha) ::
              && f.name in listing && f.name in s.disk && f.name !in s.rows && f.offset == 0
              && f.sha256sum == sha(s.disk[f.name]) && f.size == |s.disk[f.name]|
  {
    if listing != [] {
      var k := |listing| - 1;
      SyncedFilesAreThere(s, listing[..k], sha);
      assert listing == listing[..k] + [listing[k]];
    }
  }

  predicate HasDistinctNames(files: seq<FileInfo>) {
    forall i, j | 0 <= i < j < |files| :: files[i].name != files[j].name
  }

  lemma {:induction false} SyncedFilesAreDistinct(s: Contents, listing: seq<string>, sha: Hash)
    requires forall name | name in listing :: name in s.disk
    requires forall i, j | 0 <= i < j < |listing| :: listing[i] != listing[j]
    ensures HasDistinctNames(Synced(s.disk, s.rows, listing, sha))
  {
    if listing != [] {
      var k := |listing| - 1;
      var rest := Synced(s.disk, s.rows, listing[..k], sha);
      SyncedFilesAreDistinct(s, listing[..k], sha);
      SyncedFilesAreThere(s, listing[..k], sha);
      forall i | 0 <= i < |rest| ensures rest[i].name != listing[k] { assert rest[i] in rest; }
    }
  }

  /** No listed file without a row is missed. */
  lemma {:induction false} SyncedFilesAreAll(s: Contents, listing: seq<string>, sha: Hash, name: string)
    requires forall name | name in listing :: name in s.disk
    requires name in listing && name !in s.rows
    ensures exists i :: 0 <= i < |Synced(s.disk, s.rows, listing, sha)|
                        && Synced(s.disk, s.rows, listing, sha)[i].name == name
  {
    var k := |listing| - 1;
    var rest, files := Synced(s.disk, s.rows, listing[..k], sha), Synced(s.disk, s.rows, listing, sha);
    if name == listing[k] {
      assert files[|rest|].name == name;
    } else {
      SyncedFilesAreAll(s, listing[..k], sha, name);
      var i :| 0 <= i < |rest| && rest[i].name == name;
      assert files[i].name == name;
    }
  }

  /** After a start the finished files are exactly the files on disk without a row, each once. */
  lemma SyncedFiles(s: Contents, listing: seq<string>, sha: Hash)
    requires IsListing(s, listing)
    ensures var z := Restarted(s, listing, sha);
            && (forall f | f in z.files ::
                  f.name in s.disk && f.name !in s.rows && f.offset == 0 && f.sha256sum == sha(s.disk[f.name])
                  && f.size == |s.disk[f.name]|)
            && HasDistinctNames(z.files)
            && (forall name :: Exists(z, name) <==> name in s.disk && name !in s.rows)
  {
    var z := Restarted(s, listing, sha);
    SyncedFilesAreThere(s, listing, sha);
    SyncedFilesAreDistinct(s, listing, sha);
    forall name ensures Exists(z, name) <==> name in s.disk && name !in s.rows {
      if name in s.disk && name !in s.rows { SyncedFilesAreAll(s, listing, sha, name); }
      if i :| 0 <= i < |z.files| && z.files[i].name == name { assert z.files[i] in z.files; }
    }
  }

  lemma CreateKeepsSound(s: Contents, info: FileInfo)
    requires IsSound(s) && CanCreate(s, info)
    ensures IsSound(Created(s, info))
  {
    var s' := Created(s, info);
    forall t | t in s'.blocked ensures t in s.blocked || t == Token(info.name, s.issued, true) {}
  }

  lemma CloseKeepsSound(s: Contents, number: nat)
    requires IsSound(s)
    ensures IsSound(s.(blocked := Released(s.blocked, number)))
  {
    var r := Released(s.blocked, number);
    forall t | t in r
      ensures exists u :: u in s.blocked && u.name == t.name && u.number == t.number && (t.live ==> u.live)
                                        && t == if u.number == number then u.(live := false) else u
    {
      var i :| 0 <= i < |r| && r[i] == t;
      assert s.blocked[i] in s.blocked;
    }
  }

  lemma FinalizeKeepsSound(s: Contents, info: FileInfo, sha: Hash)
    requires IsSound(s) && CanFinalize(s, info, sha)
    ensures IsSound(Finalized(s, info, sha))
  {
  }

  lemma RestartKeepsSound(s: Contents, listing: seq<string>, sha: Hash)
    requires IsSound(s) && IsListing(s, listing)
    ensures IsSound(Restarted(s, listing, sha))
  {
    SyncedFiles(s, listing, sha);
  }

  /** Whatever is done to it, storage stays sound. */
  lemma OpKeepsSound(s: Contents, op: Op, sha: Hash)
    requires IsSound(s) && CanOp(s, op)
    ensures IsSound(DoOp(s, op, sha))
  {
    match op
    case Create(info) => if CanCreate(s, info) { CreateKeepsSound(s, info); }
    case Write(_, _, _, _) =>
    case Close(number) => CloseKeepsSound(s, number);
    case Finalize(info) => if CanFinalize(s, info, sha) { FinalizeKeepsSound(s, info, sha); }
    case Restart(listing) => RestartKeepsSound(s, listing, sha);
  }

  /* ---------- What the operations leave ---------- */

  /** Writing lets the data stand at its offset, keeps every other byte, and fills a gap with zeros. */
  lemma WritingMeans(content: Bytes, offset: nat, data: Bytes, i: nat)
    ensures var z := Overwritten(content, offset, data);
            && |z| == (if data == [] || offset + |data| <= |content| then |content| else offset + |data|)
            && (i < |z| ==> z[i] == if offset <= i < offset + |data| then data[i - offset]
                                    else if i < |content| then content[i] else 0)
  {
  }

  /** A file not known to the table starts empty, and is entered as announced; one known to it stays as it is. */
  lemma CreatingMeans(s: Contents, info: FileInfo, other: string)
    requires CanCreate(s, info)
    ensures var z, known := Created(s, info), info.name in s.rows;
            && z.files == s.files && z.issued == s.issued + 1
            && z.blocked == s.blocked + [Token(info.name, s.issued, true)]
            && info.name in z.disk && info.name in z.rows
            && z.disk[info.name] == (if known then s.disk[info.name] else [])
            && z.rows[info.name] == (if known then s.rows[info.name] else Row(info.sha256sum, info.size, info.offset))
            && (other != info.name ==> SameFile(s, z, other))
  {
  }

  /** Neither the contents nor the progress of the file differ. */
  predicate SameFile(s: Contents, z: Contents, name: string) {
    && (name in s.disk <==> name in z.disk) && (name in s.disk ==> s.disk[name] == z.disk[name])
    && (name in s.rows <==> name in z.rows) && (name in s.rows ==> s.rows[name] == z.rows[name])
  }

  /** Every finished file is on disk with the size and hash recorded for it. */
  ghost predicate AreGenuine(s: Contents, sha: Hash) {
    forall f | f in s.files :: f.name in s.disk && f.sha256sum == sha(s.disk[f.name]) && f.size == |s.disk[f.name]|
  }

  /** Whatever is done to storage, finished files stay genuine. */
  lemma OpKeepsGenuine(s: Contents, op: Op, sha: Hash)
    requires IsSound(s) && AreGenuine(s, sha) && CanOp(s, op)
    ensures AreGenuine(DoOp(s, op, sha), sha)
  {
    var z := DoOp(s, op, sha);
    match op
    case Restart(listing) => SyncedFilesAreThere(s, listing, sha);
    case Write(name, number, _, _) =>
      forall f | f in z.files ensures f.name != name {
        var i :| 0 <= i < |s.files| && s.files[i] == f;
        assert Token(name, number, true) in s.blocked;
      }
    case Create(info) =>
      forall f | f in z.files && CanCreate(s, info) ensures f.name != info.name {
        var i :| 0 <= i < |s.files| && s.files[i] == f;
      }
    case _ =>
  }

  /** A file becomes finished exactly by being finalized with the hash it was announced with. */
  lemma FinishingNeedsTheHash(s: Contents, info: FileInfo, sha: Hash)
    requires IsSound(s) && !Exists(s, info.name) && IsBlocked(s, info.name)
    ensures info.name in s.disk
    ensures var z := DoOp(s, Finalize(info), sha);
            && (Exists(z, info.name) <==> sha(s.disk[info.name]) == info.sha256sum)
            && (Exists(z, info.name) ==>
                  && z.files == s.files + [FileInfo(info.name, info.sha256sum, |s.disk[info.name]|, 0)]
                  && info.name !in z.rows && !IsBlocked(z, info.name) && z.disk == s.disk)
            && (!Exists(z, info.name) ==> z == s)
  {
    var i :| 0 <= i < |s.blocked| && s.blocked[i].name == info.name && s.blocked[i].live;
    assert s.blocked[i] in s.blocked;
    var z := DoOp(s, Finalize(info), sha);
    if CanFinalize(s, info, sha) { assert z.files[|s.files|].name == info.name; }
  }

  /** A restart frees every name and leaves disk and table alone. */
  lemma RestartFreesNames(s: Contents, listing: seq<string>, sha: Hash, name: string)
    requires IsListing(s, listing)
    ensures var z := Restarted(s, listing, sha);
            !IsBlocked(z, name) && SameFile(s, z, name) && z.issued == s.issued
  {
  }

  predicate CanOps(s: Contents, ops: seq<Op>, sha: Hash)
    decreases |ops|
  {
    ops == [] || (CanOp(s, ops[0]) && CanOps(DoOp(s, ops[0], sha), ops[1..], sha))
  }

  function DoOps(s: Contents, ops: seq<Op>, sha: Hash): Contents
    requires CanOps(s, ops, sha)
    decreases |ops|
  {
    if ops == [] then s else DoOps(DoOp(s, ops[0], sha), ops[1..], sha)
  }

  /** In every reachable state: one live writer a name at most, finished names distinct, without writer or row. */
  lemma {:induction false} StorageStaysSound(ops: seq<Op>, s: Contents, sha: Hash)
    requires IsSound(s) && CanOps(s, ops, sha)
    ensures var z := DoOps(s, ops, sha);
            && IsSound(z) && (AreGenuine(s, sha) ==> AreGenuine(z, sha))
            && (forall t, u | t in z.blocked && u in z.blocked && t.live && u.live && t.name == u.name :: t == u)
            && (forall f | f in z.files :: !IsBlocked(z, f.name) && f.name !in z.rows)
    decreases |ops|
  {
    if ops == [] {
      forall f | f in s.files ensures !IsBlocked(s, f.name) && f.name !in s.rows {}
    } else {
      OpKeepsSound(s, ops[0], sha);
      if AreGenuine(s, sha) { OpKeepsGenuine(s, ops[0], sha); }
      StorageStaysSound(ops[1..], DoOp(s, ops[0], sha), sha);
    }
  }
}
