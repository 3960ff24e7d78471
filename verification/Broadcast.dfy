/** File lists sent once round the ring, and the fetches they start. */
module Broadcasts {
  import opened Identifiers
  import opened RoutingTables
  import opened Paths
  import opened Rings
  import opened IdealRings
  import opened Messages
  import opened Storages

  /** A `broadcast_filelist` request: whom it goes to, who has handled it, and the originator's files. */
  datatype Delivery = Delivery(to: Id, peers: seq<Id>, files: seq<FileInfo>)

  /** A `GetFile` started for a missing file; one that could not create its output ends at once. */
  datatype Fetch = Fetch(info: FileInfo, from: Id, ended: bool)

  /** What whoever handles `d` passes on to `next`. */
  function SentOn(d: Delivery, next: Id): Delivery {
    Delivery(next, d.peers + [d.to], d.files)
  }

  /* ---------- Handling a file list ---------- */

  function WithFetch(s: Contents, fetches: seq<Fetch>, file: FileInfo, from: Id): (Contents, seq<Fetch>) {
    if Exists(s, file.name) then (s, fetches)
    else if CanCreate(s, file) then (Created(s, file), fetches + [Fetch(Resumed(s, file), from, false)])
    else (s, fetches + [Fetch(file, from, true)])
  }

  /** Storage and fetches once all files of the list have been looked at. */
  function WithFetches(s: Contents, files: seq<FileInfo>, from: Id): (Contents, seq<Fetch>) {
    if files == [] then (s, [])
    else
      var last := |files| - 1;
      var (before, fetches) := WithFetches(s, files[..last], from);
      WithFetch(before, fetches, files[last], from)
  }

  class BroadcastFilelist {
    const table: RoutingTable
    const storage: StaticStorage
    var state: MessageState
    var isDone: bool
    var flag: bool
    var timePoint: nat
    var dependencies: seq<Fetch>
    var sent: seq<Delivery>

    constructor (table: RoutingTable, storage: StaticStorage, now: nat)
      ensures this.table == table && this.storage == storage && timePoint == now + DURATION
      ensures state == VALID && !isDone && flag && dependencies == [] && sent == []
    {
      this.table, this.storage := table, storage;
      state, isDone, flag, timePoint, dependencies, sent := VALID, false, true, now + DURATION, [], [];
    }

    /** The originator is the first to have seen its list. */
    method CreateRequest()
      modifies this
      ensures var t := table.View();
              if t.self.None? || t.succs == [] then state == FAILED && sent == old(sent)
              else state == DONE && sent == old(sent) + [Delivery(t.succs[0], [t.SelfId()], storage.files)]
      ensures isDone && dependencies == old(dependencies) && flag == old(flag) && timePoint == old(timePoint)
    {
      isDone := true;
      var hasSelf, self := table.TryGetSelf();
      if !hasSelf {
        state := FAILED;
        return;
      }
      var hasTarget, target := table.TryGetSuccessor();
      if !hasTarget {
        state := FAILED;
        return;
      }
      sent := sent + [Delivery(target, [self], storage.files)];
      state := DONE;
    }

    method HasSeen(peers: seq<Id>, self: Id) returns (seen: bool)
      ensures seen == (self in peers)
    {
      for i := 0 to |peers|
        invariant self !in peers[..i]
      {
        if peers[i] == self { return true; }
      }
      return false;
    }

    /**
     * Files this node lacks are fetched from the originator.  Each fetch reports, be it that it asks or that it ended
     * at once, which extends the deadline; but none can finish the message meanwhile.
     */
    method FetchMissing(files: seq<FileInfo>, from: Id, now: nat)
      requires dependencies == []
      modifies this`dependencies, this`flag, this`timePoint, storage
      ensures (storage.View(), dependencies) == WithFetches(old(storage.View()), files, from) && flag
      ensures timePoint == if dependencies == [] then old(timePoint) else now + DURATION
    {
      flag := false;
      ghost var was := storage.View();
      for i := 0 to |files|
        invariant (storage.View(), dependencies) == WithFetches(was, files[..i], from)
        invariant timePoint == if dependencies == [] then old(timePoint) else now + DURATION
      {
        assert files[..i + 1][..i] == files[..i];
        var file := files[i];
        var found := storage.ExistsInternal(file.name);
        if !found {
          var writer, resumed := storage.CreateFile(file);
          dependencies := dependencies + [Fetch(if writer.Some? then resumed else file, from, writer.None?)];
          timePoint := now + DURATION;
        }
      }
      assert files[..|files|] == files;
      flag := true;
    }

    /** A list seen before goes no further; any other is acted upon and passed on. */
    method HandleRequest(peers: seq<Id>, files: seq<FileInfo>, now: nat)
      requires dependencies == []
      modifies this, storage
      ensures var t := table.View();
              var stops := t.self.None? || t.SelfId() in peers;
              && (stops ==> isDone && state == (if t.self.None? then FAILED else DONE) && dependencies == []
                            && sent == old(sent) && storage.View() == old(storage.View())
                            && timePoint == old(timePoint))
              && (!stops ==>
                    var visited := peers + [t.SelfId()];
                    && (storage.View(), dependencies) == WithFetches(old(storage.View()), files, visited[0])
                    && sent == old(sent) + (if t.succs == [] then []
                                            else [SentOn(Delivery(t.SelfId(), peers, files), t.succs[0])])
                    && state == (if t.succs == [] then FAILED else DONE)
                    && timePoint == (if dependencies == [] then old(timePoint) else now + DURATION)
                    && isDone == (old(isDone) || dependencies == []) && flag)
    {
      var hasSelf, self := table.TryGetSelf();
      if !hasSelf {
        state := FAILED;
        isDone := true;
        return;
      }
      var seen := HasSeen(peers, self);
      if seen {
        state := DONE;
        isDone := true;
        return;
      }
      var visited := peers + [self];
      FetchMissing(files, visited[0], now);
      var hasTarget, target := table.TryGetSuccessor();
      state := FAILED;
      if hasTarget {
        sent := sent + [Delivery(target, visited, files)];
        state := DONE;
      }
      if dependencies == [] {
        isDone := true;
      }
    }

    /** Fetch `i` reports progress or its end: the deadline moves, and once all have ended the message is done. */
    method HandleNotification(i: nat, ends: bool, now: nat)
      requires i < |dependencies|
      modifies this
      ensures dependencies == Reported(old(dependencies), i, ends) && timePoint == now + DURATION
      ensures isDone == (old(isDone) || (flag && AllEnded(dependencies)))
      ensures state == if flag && AllEnded(dependencies) then DONE else old(state)
      ensures flag == old(flag) && sent == old(sent)
    {
      if ends {
        dependencies := dependencies[i := dependencies[i].(ended := true)];
      }
      timePoint := now + DURATION;
      if flag && AllEnded(dependencies) {
        state := DONE;
        isDone := true;
      }
    }
  }

  predicate AllEnded(fetches: seq<Fetch>) {
    forall f | f in fetches :: f.ended
  }

  function Reported(fetches: seq<Fetch>, i: nat, ends: bool): (r: seq<Fetch>)
    requires i < |fetches|
    ensures |r| == |fetches| && r[i].ended == (fetches[i].ended || ends)
    ensures r[i].info == fetches[i].info && r[i].from == fetches[i].from
    ensures forall j | 0 <= j < |r| && j != i :: r[j] == fetches[j]
  {
    if ends then fetches[i := fetches[i].(ended := true)] else fetches
  }

  /** How often `name` is being fetched. */
  function Running(fetches: seq<Fetch>, name: string): nat {
    if fetches == [] then 0
    else Running(fetches[..|fetches| - 1], name)
         + if !fetches[|fetches| - 1].ended && fetches[|fetches| - 1].info.name == name then 1 else 0
  }

  lemma FetchingOne(s: Contents, fetches: seq<Fetch>, file: FileInfo, from: Id, other: FileInfo)
    ensures var (z, all) := WithFetch(s, fetches, file, from);
            && z.files == s.files
            && (CanCreate(z, other) <==> CanCreate(s, other) && other.name != file.name)
            && Running(all, other.name)
            == Running(fetches, other.name) + if other.name == file.name && CanCreate(s, other) then 1 else 0
  {
    var (z, all) := WithFetch(s, fetches, file, from);
    if all != fetches { assert all[..|all| - 1] == fetches; }
    if CanCreate(s, file) {
      assert z.blocked[|s.blocked|] == Token(file.name, s.issued, true);
      if file.name != other.name && IsBlocked(s, other.name) {
        var i :| 0 <= i < |s.blocked| && s.blocked[i].name == other.name && s.blocked[i].live;
        assert z.blocked[i] == s.blocked[i];
      }
    }
  }

  predicate IsListed(files: seq<FileInfo>, name: string) {
    exists i :: 0 <= i < |files| && files[i].name == name
  }

  lemma ListedOrLast(files: seq<FileInfo>, name: string)
    requires files != []
    ensures IsListed(files, name) <==> IsListed(files[..|files| - 1], name) || files[|files| - 1].name == name
  {
    if i :| 0 <= i < |files| - 1 && files[i].name == name { assert files[..|files| - 1][i].name == name; }
  }

  /** Exactly the listed files that can be received are, once each however often listed. */
  lemma {:induction false} EveryMissingFileIsFetchedOnce(s: Contents, files: seq<FileInfo>, from: Id, wanted: FileInfo)
    ensures var (z, fetches) := WithFetches(s, files, from);
            && z.files == s.files
            && Running(fetches, wanted.name) == (if IsListed(files, wanted.name) && CanCreate(s, wanted) then 1 else 0)
            && (CanCreate(z, wanted) <==> CanCreate(s, wanted) && !IsListed(files, wanted.name))
    decreases |files|
  {
    if files != [] {
      var last := |files| - 1;
      var (before, fetches) := WithFetches(s, files[..last], from);
      EveryMissingFileIsFetchedOnce(s, files[..last], from, wanted);
      FetchingOne(before, fetches, files[last], from, wanted);
      ListedOrLast(files, wanted.name);
    }
  }

  /** Nothing finished is fetched, and everything from the originator. */
  lemma {:induction false} OnlyMissingFilesAreFetched(s: Contents, files: seq<FileInfo>, from: Id)
    ensures var (z, fetches) := WithFetches(s, files, from);
            z.files == s.files && forall f | f in fetches :: f.from == from && !Exists(s, f.info.name)
    decreases |files|
  {
    if files != [] {
      var front, last := files[..|files| - 1], files[|files| - 1];
      OnlyMissingFilesAreFetched(s, front, from);
      assert Exists(WithFetches(s, front, from).0, last.name) == Exists(s, last.name);
    }
  }

  /** A running fetch asks for its file from where an earlier attempt got to, else as it was listed. */
  lemma {:induction false} FetchesResume(s: Contents, files: seq<FileInfo>, from: Id, wanted: FileInfo)
    ensures var (z, fetches) := WithFetches(s, files, from);
            && (wanted.name in s.rows ==> wanted.name in z.rows && z.rows[wanted.name] == s.rows[wanted.name])
            && (forall f | f in fetches && !f.ended && f.info.name == wanted.name ::
                  exists i :: 0 <= i < |files| && IsAskedFor(s, files[i], f.info))
    decreases |files|
  {
    if files != [] {
      var last := |files| - 1;
      var front, file := files[..last], files[last];
      var (before, fetches) := WithFetches(s, front, from);
      var (z, all) := WithFetches(s, files, from);
      FetchesResume(s, front, from, wanted);
      FetchesResume(s, front, from, file);
      RowsComeFromLists(s, front, from, file.name);
      EveryMissingFileIsFetchedOnce(s, front, from, file);
      forall f | f in all && !f.ended && f.info.name == wanted.name
        ensures exists i :: 0 <= i < |files| && IsAskedFor(s, files[i], f.info)
      {
        if f in fetches {
          var i :| 0 <= i < |front| && IsAskedFor(s, front[i], f.info);
          assert IsAskedFor(s, files[i], f.info);
        } else {
          assert IsAskedFor(s, files[last], f.info);
        }
      }
    }
  }

  /** `asked` is `listed`, from the offset recorded for it if there is one. */
  predicate IsAskedFor(s: Contents, listed: FileInfo, asked: FileInfo) {
    asked == listed.(offset := if listed.name in s.rows then s.rows[listed.name].bytesWritten else listed.offset)
  }

  /** New rows are for listed files that could be created. */
  lemma {:induction false} RowsComeFromLists(s: Contents, files: seq<FileInfo>, from: Id, name: string)
    ensures name in WithFetches(s, files, from).0.rows ==> name in s.rows || IsListed(files, name)
    decreases |files|
  {
    if files != [] {
      RowsComeFromLists(s, files[..|files| - 1], from, name);
      ListedOrLast(files, name);
    }
  }

  /* ---------- Whether the fetches will finish the message ---------- */

  /** A message whose list has been gone through. */
  datatype Handling = Handling(isDone: bool, fetches: seq<Fetch>)

  datatype Word =
    /** A running fetch reports progress or its end. */
    | Reports(i: nat, ends: bool)
    /** A running fetch is found past its deadline, which nobody is told. */
    | Lapses(i: nat)

  predicate CanHear(h: Handling, w: Word) {
    w.i < |h.fetches| && !h.fetches[w.i].ended
  }

  function Hear(h: Handling, w: Word): Handling
    requires CanHear(h, w)
  {
    match w
    case Reports(i, ends) =>
      var fetches := Reported(h.fetches, i, ends);
      Handling(h.isDone || AllEnded(fetches), fetches)
    case Lapses(i) => h.(fetches := Reported(h.fetches, i, true))
  }

  predicate CanHearAll(h: Handling, ws: seq<Word>)
    decreases |ws|
  {
    ws == [] || (CanHear(h, ws[0]) && CanHearAll(Hear(h, ws[0]), ws[1..]))
  }

  function HearAll(h: Handling, ws: seq<Word>): Handling
    requires CanHearAll(h, ws)
    decreases |ws|
  {
    if ws == [] then h else HearAll(Hear(h, ws[0]), ws[1..])
  }

  ghost predicate IsFinish(h: Handling, ws: seq<Word>) {
    CanHearAll(h, ws) && HearAll(h, ws).isDone
  }

  /** Some reports of its fetches finish the message. */
  ghost predicate CanFinish(h: Handling) {
    exists ws :: IsFinish(h, ws)
  }

  predicate IsRunning(fetches: seq<Fetch>, i: nat) {
    i < |fetches| && !fetches[i].ended
  }

  /** A message is finished exactly by a report after which no fetch runs; a lapse never finishes one. */
  lemma ReportFinishesIff(h: Handling, w: Word)
    requires CanHear(h, w) && !h.isDone
    ensures Hear(h, w).isDone <==> w.Reports? && !SomeRuns(Hear(h, w).fetches)
  {
    var fetches := Hear(h, w).fetches;
    if i: nat :| IsRunning(fetches, i) { assert fetches[i] in fetches; }
    if f :| f in fetches && !f.ended {
      var i :| 0 <= i < |fetches| && fetches[i] == f;
      assert IsRunning(fetches, i);
    }
  }

  /** Let every running fetch from `k` on report its end. */
  lemma {:induction false} RunningFetchesFinish(h: Handling, k: nat) returns (ws: seq<Word>)
    requires k <= |h.fetches| && (forall i | 0 <= i < k :: h.fetches[i].ended)
    requires h.isDone || SomeRuns(h.fetches)
    ensures IsFinish(h, ws)
    decreases |h.fetches| - k
  {
    if h.isDone {
      ws := [];
    } else if h.fetches[k].ended {
      ws := RunningFetchesFinish(h, k + 1);
    } else {
      var next := Hear(h, Reports(k, true));
      if !next.isDone {
        var f :| f in next.fetches && !f.ended;
        var i :| 0 <= i < |next.fetches| && next.fetches[i] == f;
        assert IsRunning(next.fetches, i);
      }
      var rest := RunningFetchesFinish(next, k + 1);
      ws := [Reports(k, true)] + rest;
      assert ws[1..] == rest;
    }
  }

  lemma FinishesIffRunning(h: Handling)
    ensures CanFinish(h) <==> h.isDone || SomeRuns(h.fetches)
  {
    if h.isDone || SomeRuns(h.fetches) {
      var ws := RunningFetchesFinish(h, 0);
    }
    forall ws: seq<Word> | IsFinish(h, ws) ensures h.isDone || SomeRuns(h.fetches) {
      if ws != [] { assert IsRunning(h.fetches, ws[0].i); }
    }
  }

  lemma CreatingDependsOnName(s: Contents, file: FileInfo, other: FileInfo)
    requires file.name == other.name
    ensures CanCreate(s, file) == CanCreate(s, other)
  {
  }

  ghost predicate SomeRuns(fetches: seq<Fetch>) {
    exists i :: IsRunning(fetches, i)
  }

  ghost predicate SomeCanBeCreated(s: Contents, files: seq<FileInfo>) {
    exists i :: 0 <= i < |files| && CanCreate(s, files[i])
  }

  lemma OneMoreFetchRuns(fetches: seq<Fetch>, f: Fetch)
    ensures SomeRuns(fetches + [f]) <==> SomeRuns(fetches) || !f.ended
  {
    var all := fetches + [f];
    if i: nat :| IsRunning(fetches, i) { assert IsRunning(all, i); }
    if !f.ended { assert IsRunning(all, |fetches|); }
    if i: nat :| IsRunning(all, i) && i < |fetches| { assert IsRunning(fetches, i); }
  }

  lemma OneMoreCanBeCreated(s: Contents, files: seq<FileInfo>)
    requires files != []
    ensures var last := |files| - 1;
            SomeCanBeCreated(s, files) <==> SomeCanBeCreated(s, files[..last]) || CanCreate(s, files[last])
  {
    var front := files[..|files| - 1];
    if i :| 0 <= i < |front| && CanCreate(s, front[i]) { assert CanCreate(s, files[i]); }
    if i :| 0 <= i < |files| && CanCreate(s, files[i]) && i < |front| { assert CanCreate(s, front[i]); }
  }

  /** Some fetch runs exactly when some listed file can be received. */
  lemma {:induction false} SomeFetchRunsIff(s: Contents, files: seq<FileInfo>, from: Id)
    ensures SomeRuns(WithFetches(s, files, from).1) <==> SomeCanBeCreated(s, files)
    decreases |files|
  {
    if files != [] {
      var last := |files| - 1;
      var file, front := files[last], files[..last];
      var (before, fetches) := WithFetches(s, front, from);
      SomeFetchRunsIff(s, front, from);
      EveryMissingFileIsFetchedOnce(s, front, from, file);
      OneMoreFetchRuns(fetches, Fetch(file, from, true));
      OneMoreFetchRuns(fetches, Fetch(Resumed(before, file), from, false));
      OneMoreCanBeCreated(s, files);
      if CanCreate(s, file) && !CanCreate(before, file) {
        var i :| 0 <= i < last && front[i].name == file.name;
        CreatingDependsOnName(s, front[i], file);
      }
    }
  }

  lemma {:induction false} NothingFetchedIff(s: Contents, files: seq<FileInfo>, from: Id)
    ensures WithFetches(s, files, from).0.files == s.files
    ensures WithFetches(s, files, from).1 == [] <==> forall i | 0 <= i < |files| :: Exists(s, files[i].name)
    decreases |files|
  {
    if files != [] {
      var front := files[..|files| - 1];
      NothingFetchedIff(s, front, from);
      assert Exists(WithFetches(s, front, from).0, files[|files| - 1].name) == Exists(s, files[|files| - 1].name);
      assert forall i | 0 <= i < |front| :: front[i] == files[i];
    }
  }

  /**
   * A file list that is passed on can be finished by its fetches exactly when nothing listed is missing, or something
   * listed can be received; any other waits for its own deadline.
   */
  lemma ListFinishesIff(s: Contents, files: seq<FileInfo>, from: Id)
    ensures var fetches := WithFetches(s, files, from).1;
            CanFinish(Handling(fetches == [], fetches)) <==>
            || (forall i | 0 <= i < |files| :: Exists(s, files[i].name))
            || SomeCanBeCreated(s, files)
  {
    var fetches := WithFetches(s, files, from).1;
    FinishesIffRunning(Handling(fetches == [], fetches));
    SomeFetchRunsIff(s, files, from);
    NothingFetchedIff(s, files, from);
  }

  /** Such a list: its one file is just being received. */
  lemma AListIsStuck() returns (s: Contents, files: seq<FileInfo>)
    ensures IsSound(s) && |files| == 1
    ensures forall from :: var fetches := WithFetches(s, files, from).1; !CanFinish(Handling(fetches == [], fetches))
  {
    var file := FileInfo("f", "", 1, 0);
    var empty := Contents(map[], map[], [], [], 0);
    s, files := Created(empty, file), [file];
    CreateKeepsSound(empty, file);
    assert s.blocked[0] == Token("f", 0, true);
    forall from ensures !CanFinish(Handling(WithFetches(s, files, from).1 == [], WithFetches(s, files, from).1)) {
      ListFinishesIff(s, files, from);
    }
  }

  /* ---------- The walk ---------- */

  /** What became of a broadcast so far: whoever had not seen it passed it to some member, however links were then. */
  ghost predicate IsJourney(trace: seq<Delivery>, o: Id, members: set<Id>) {
    && trace != [] && o in members && trace[0].peers == [o]
    && (forall i | 0 <= i < |trace| :: trace[i].to in members)
    && (forall i | 0 < i < |trace| :: IsPassedOn(trace[i - 1], trace[i]))
  }

  predicate IsPassedOn(d: Delivery, e: Delivery) {
    d.to !in d.peers && e == SentOn(d, e.to)
  }

  function Last(trace: seq<Delivery>): Delivery
    requires trace != []
  {
    trace[|trace| - 1]
  }

  predicate HasNoDuplicates(peers: seq<Id>) {
    forall i, j | 0 <= i < j < |peers| :: peers[i] != peers[j]
  }

  lemma {:induction false} DistinctMembersAreFew(peers: seq<Id>, members: set<Id>)
    requires HasNoDuplicates(peers) && forall p | p in peers :: p in members
    ensures |peers| <= |members|
    ensures |peers| == |members| <==> forall m | m in members :: m in peers
    decreases |peers|
  {
    if peers == [] {
      if m :| m in members { assert m !in peers; }
    } else {
      var last := |peers| - 1;
      var rest := peers[..last];
      assert peers == rest + [peers[last]];
      DistinctMembersAreFew(rest, members - {peers[last]});
    }
  }

  /** Nobody handles a list twice, so it stops after at most as many sends as there are members. */
  lemma {:induction false} BroadcastStops(trace: seq<Delivery>, o: Id, members: set<Id>)
    requires IsJourney(trace, o, members)
    ensures var visited := Last(trace).peers;
            && HasNoDuplicates(visited) && visited != [] && visited[0] == o && (forall p | p in visited :: p in members)
            && |trace| == |visited| <= |members|
            && (forall i | 0 <= i < |trace| - 1 :: visited[i + 1] == trace[i].to)
            && Last(trace).files == trace[0].files
            && (|trace| == |members| ==> Last(trace).to in visited)
    decreases |trace|
  {
    var n := |trace| - 1;
    if n > 0 {
      assert IsPassedOn(trace[n - 1], trace[n]);
      BroadcastStops(trace[..n], o, members);
    }
    DistinctMembersAreFew(Last(trace).peers, members);
  }

  /** Each member's successor was the next member clockwise at the time it passed the list on. */
  ghost predicate IsClockwise(ring: Ring, trace: seq<Delivery>, members: set<Id>)
    requires forall m | m in members :: m in ring
  {
    forall d | d in trace ::
      d.peers != [] && d.peers[|d.peers| - 1] in ring && IsNextMember(ring, members, d.peers[|d.peers| - 1], d.to)
  }

  /** Those who have handled the list are the members from the originator up to the last one to do so. */
  lemma {:induction false} VisitedFillAnArc(ring: Ring, trace: seq<Delivery>, o: Id, members: set<Id>, y: Id)
    requires IsJourney(trace, o, members) && (forall m | m in members :: m in ring) && IsClockwise(ring, trace, members)
    requires y in members
    ensures var visited := Last(trace).peers;
            y in visited <==> Dist(ring, o, y) <= Dist(ring, o, visited[|visited| - 1])
    decreases |trace|
  {
    var n := |trace| - 1;
    if n == 0 {
      if Dist(ring, o, y) == 0 { SamePlace(ring, o, o, y); }
    } else {
      var d := trace[n - 1];
      assert IsPassedOn(d, trace[n]) && Last(trace[..n]) == d && d in trace;
      VisitedFillAnArc(ring, trace[..n], o, members, y);
      VisitedFillAnArc(ring, trace[..n], o, members, d.to);
      var e := d.peers[|d.peers| - 1];
      assert Lap(ring, e, d.to) <= Lap(ring, e, y);
      NextComesFirst(ring, o, e, d.to, y);
      if Dist(ring, o, d.to) == Dist(ring, o, y) { SamePlace(ring, o, d.to, y); }
    }
  }

  /**
   * On an ideal ring a list goes all the way round: it is stopped by its originator, and only when every
   * member has handled it, after exactly one send for each.
   */
  lemma BroadcastCoversTheRing(ring: Ring, trace: seq<Delivery>, o: Id, members: set<Id>)
    requires IsJourney(trace, o, members) && (forall m | m in members :: m in ring) && IsClockwise(ring, trace, members)
    ensures var visited := Last(trace).peers;
            && (Last(trace).to in visited <==> |trace| == |members|)
            && (Last(trace).to in visited <==> Last(trace).to == o)
            && (Last(trace).to in visited ==> forall m | m in members :: m in visited)
  {
    var visited, t := Last(trace).peers, Last(trace).to;
    var e := visited[|visited| - 1];
    BroadcastStops(trace, o, members);
    assert Last(trace) in trace;
    if t in visited {
      VisitedFillAnArc(ring, trace, o, members, t);
      assert Lap(ring, e, t) <= Lap(ring, e, o);
      NextComesFirst(ring, o, e, t, o);
      forall m | m in members ensures m in visited {
        assert Lap(ring, e, t) <= Lap(ring, e, m);
        NextComesFirst(ring, o, e, t, m);
        VisitedFillAnArc(ring, trace, o, members, m);
      }
      DistinctMembersAreFew(visited, members);
    }
  }

  function Unseen(members: set<Id>, peers: seq<Id>): set<Id> {
    set m | m in members && m !in peers
  }

  /** The deliveries from `d` on while successors stay as they are. */
  ghost function Walk(ring: Ring, succ: Edges, members: set<Id>, d: Delivery): seq<Delivery>
    requires IsMembership(ring, succ, members) && d.to in members
    decreases Unseen(members, d.peers)
  {
    if d.to in d.peers then [d]
    else
      var next := SentOn(d, Next(succ, d.to));
      assert d.to in Unseen(members, d.peers) && d.to !in Unseen(members, next.peers);
      [d] + Walk(ring, succ, members, next)
  }

  ghost predicate FollowsSuccessors(succ: Edges, d: Delivery) {
    d.peers != [] && d.to == Next(succ, d.peers[|d.peers| - 1])
  }

  /** A delivery among members, from the last to have handled it to its successor. */
  ghost predicate IsOnWalk(succ: Edges, members: set<Id>, d: Delivery) {
    d.to in members && FollowsSuccessors(succ, d) && forall p | p in d.peers :: p in members
  }

  lemma WalkGoesOn(ring: Ring, succ: Edges, members: set<Id>, d: Delivery)
    requires IsMembership(ring, succ, members) && IsOnWalk(succ, members, d) && d.to !in d.peers
    ensures var next := SentOn(d, Next(succ, d.to));
            && IsOnWalk(succ, members, next) && IsPassedOn(d, next)
            && d.to in Unseen(members, d.peers) && d.to !in Unseen(members, next.peers)
            && Unseen(members, next.peers) < Unseen(members, d.peers)
  {
  }

  lemma {:induction false} WalkUntilSeen(ring: Ring, succ: Edges, members: set<Id>, d: Delivery)
    requires IsMembership(ring, succ, members) && IsOnWalk(succ, members, d)
    ensures var trace := Walk(ring, succ, members, d);
            && trace[0] == d && Last(trace).to in Last(trace).peers
            && (forall i | 0 < i < |trace| :: IsPassedOn(trace[i - 1], trace[i]))
            && (forall i | 0 <= i < |trace| :: IsOnWalk(succ, members, trace[i]))
    decreases Unseen(members, d.peers)
  {
    if d.to !in d.peers {
      WalkGoesOn(ring, succ, members, d);
      WalkUntilSeen(ring, succ, members, SentOn(d, Next(succ, d.to)));
      var rest := Walk(ring, succ, members, SentOn(d, Next(succ, d.to)));
      assert forall i | 0 < i < |rest| + 1 :: ([d] + rest)[i] == rest[i - 1];
    }
  }

  lemma IdealWalkIsClockwise(ring: Ring, succ: Edges, members: set<Id>, trace: seq<Delivery>)
    requires IsIdeal(ring, succ, members) && forall i | 0 <= i < |trace| :: IsOnWalk(succ, members, trace[i])
    ensures IsClockwise(ring, trace, members)
  {
    forall d | d in trace
      ensures d.peers != [] && d.peers[|d.peers| - 1] in ring
      ensures IsNextMember(ring, members, d.peers[|d.peers| - 1], d.to)
    {
      var i :| 0 <= i < |trace| && trace[i] == d;
      assert IsOnWalk(succ, members, trace[i]) && d.peers[|d.peers| - 1] in d.peers;
    }
  }

  /** Whatever the successors, a broadcast ends; on an ideal ring of `n` members with its `n`-th send, back home. */
  lemma BroadcastEnds(ring: Ring, succ: Edges, members: set<Id>, o: Id, files: seq<FileInfo>)
    requires IsMembership(ring, succ, members) && o in members
    ensures var trace := Walk(ring, succ, members, Delivery(Next(succ, o), [o], files));
            && IsJourney(trace, o, members) && |trace| <= |members| && Last(trace).to in Last(trace).peers
            && (IsIdeal(ring, succ, members) ==>
                  |trace| == |members| && Last(trace).to == o && forall m | m in members :: m in Last(trace).peers)
  {
    var d := Delivery(Next(succ, o), [o], files);
    var trace := Walk(ring, succ, members, d);
    WalkUntilSeen(ring, succ, members, d);
    assert forall i | 0 <= i < |trace| :: IsOnWalk(succ, members, trace[i]) && trace[i].to in members;
    BroadcastStops(trace, o, members);
    if IsIdeal(ring, succ, members) {
      IdealWalkIsClockwise(ring, succ, members, trace);
      BroadcastCoversTheRing(ring, trace, o, members);
    }
  }

  /** Once a ring has nothing left to stabilize, every member's file list reaches every member. */
  lemma RestingRingIsCovered(ring: Ring, c: Id, s: State, o: Id, files: seq<FileInfo>)
    requires Inv(ring, c, s) && IsQuiescent(s) && IsMember(s, o)
    ensures IsMembership(ring, Successors(ring, s), Members(s))
    ensures var succ := Successors(ring, s);
            var trace := Walk(ring, succ, Members(s), Delivery(Next(succ, o), [o], files));
            |trace| == |Members(s)| && Last(trace).to == o && forall m | IsMember(s, m) :: m in Last(trace).peers
  {
    QuiescentIffIdeal(ring, c, s);
    IdealSuccessors(ring, c, s);
    BroadcastEnds(ring, Successors(ring, s), Members(s), o, files);
  }
}
