/** A node's stabilize flag over all its `Stabilize` messages: maintenance never gets stuck behind it. */
module StabilizeFlag {
  import opened Identifiers
  import opened RoutingTables
  import opened Messages

  /** The node's table and flag, every `Stabilize` message it ever started, and the time of the last event. */
  datatype System = System(table: Table, flag: bool, msgs: seq<Stabilizer>, clock: nat)

  datatype Event =
    /** The maintenance loop comes round. */
    | Loop(now: nat)
    /** The latest dependency of message `i` reports. */
    | Reports(i: nat, r: Report, now: nat)
    /**
     * The cleaning pass finds message `i` past its deadline.  Its open dependency was started no earlier than that
     * deadline was set, so the pass never finds the dependency expired first.
     */
    | Expires(i: nat, now: nat)

  function At(y: System, i: nat): Context
    requires i < |y.msgs|
  {
    Context(y.table, y.flag, y.msgs[i], [])
  }

  function Put(y: System, i: nat, x: Context): System
    requires i < |y.msgs|
  {
    System(x.table, x.flag, y.msgs[i := x.msg], y.clock)
  }

  /** Time never runs backwards, and a message expires only after its deadline. */
  predicate CanHappen(y: System, e: Event) {
    && y.clock <= e.now
    && match e
       case Loop(_) => true
       case Reports(i, _, _) => i < |y.msgs| && !y.msgs[i].done && y.msgs[i].dependencies != []
       case Expires(i, now) => i < |y.msgs| && !y.msgs[i].done && now > y.msgs[i].deadline
  }

  function Happen(y: System, e: Event): System
    requires CanHappen(y, e)
  {
    var z := y.(clock := e.now);
    match e
    case Loop(now) =>
      if y.flag then z
      else
        var x := Started(Context(y.table, true, Stabilizer(VALID, false, now + DURATION, []), []));
        System(x.table, x.flag, y.msgs + [x.msg], now)
    case Reports(i, r, now) => Put(z, i, WithReport(At(y, i), r, now))
    case Expires(i, _) =>
      var x := WithFailure(At(y, i));
      Put(z, i, x.(msg := x.msg.(done := true)))
  }

  /** The message still waits for a list, from its successor or from a closer node. */
  predicate Waits(m: Stabilizer) {
    !m.done && m.dependencies != [] && m.dependencies[0] in {GET_PRED_AND_SUCC_LIST, GET_SELF_AND_SUCC_LIST}
  }

  /** Sub-requests come in one of these orders. */
  predicate IsWellFormed(m: Stabilizer) {
    || m.dependencies == [GET_PRED_AND_SUCC_LIST]
    || m.dependencies == [GET_SELF_AND_SUCC_LIST, GET_PRED_AND_SUCC_LIST]
    || m.dependencies == [NOTIFICATION, GET_PRED_AND_SUCC_LIST]
    || m.dependencies == [NOTIFICATION, GET_SELF_AND_SUCC_LIST, GET_PRED_AND_SUCC_LIST]
    || (m.done && m.dependencies == [])
  }

  /** A raised flag always has somebody who will lower it. */
  ghost predicate IsLive(y: System) {
    && (forall i | 0 <= i < |y.msgs| :: IsWellFormed(y.msgs[i]))
    && (y.flag ==> exists i :: 0 <= i < |y.msgs| && Waits(y.msgs[i]))
  }

  lemma EventKeepsLive(y: System, e: Event)
    requires IsLive(y) && CanHappen(y, e)
    ensures IsLive(Happen(y, e))
  {
    var z := Happen(y, e);
    match e
    case Loop(_) =>
      if !y.flag && z.flag { assert Waits(z.msgs[|y.msgs|]); }
    case Reports(i, r, now) =>
      forall j | 0 <= j < |z.msgs| ensures IsWellFormed(z.msgs[j]) {
        assert IsWellFormed(y.msgs[j]);
      }
      if z.flag && r.done && r.state == DONE {
        var k :| 0 <= k < |y.msgs| && Waits(y.msgs[k]);
        assert Waits(z.msgs[i]) || Waits(z.msgs[k]);
      }
    case Expires(i, _) =>
  }

  predicate Happens(y: System, events: seq<Event>)
    decreases |events|
  {
    events == [] || (CanHappen(y, events[0]) && Happens(Happen(y, events[0]), events[1..]))
  }

  function After(y: System, events: seq<Event>): System
    requires Happens(y, events)
    decreases |events|
  {
    if events == [] then y else After(Happen(y, events[0]), events[1..])
  }

  /** In every reachable state a raised flag means some unfinished message with a deadline still awaits a list. */
  lemma {:induction false} FlagIsAlwaysAwaited(y: System, events: seq<Event>)
    requires IsLive(y) && Happens(y, events)
    ensures IsLive(After(y, events))
    decreases |events|
  {
    if events != [] {
      EventKeepsLive(y, events[0]);
      FlagIsAlwaysAwaited(Happen(y, events[0]), events[1..]);
    }
  }

  /** The cleaning pass over messages `k ..`: each unfinished message past its deadline fails. */
  function Cleaned(y: System, now: nat, k: nat): System
    requires k <= |y.msgs| && y.clock <= now
    ensures Cleaned(y, now, k).clock <= now
    ensures |Cleaned(y, now, k).msgs| == |y.msgs|
    decreases |y.msgs| - k
  {
    if k == |y.msgs| then y
    else if !y.msgs[k].done && now > y.msgs[k].deadline then Cleaned(Happen(y, Expires(k, now)), now, k + 1)
    else Cleaned(y, now, k + 1)
  }

  lemma {:induction false} CleaningEndsWaits(y: System, now: nat, k: nat)
    requires IsLive(y) && k <= |y.msgs| && y.clock <= now
    requires forall i | 0 <= i < |y.msgs| && !y.msgs[i].done :: now > y.msgs[i].deadline
    requires forall i | 0 <= i < k :: y.msgs[i].done
    ensures IsLive(Cleaned(y, now, k)) && forall i | 0 <= i < |y.msgs| :: Cleaned(y, now, k).msgs[i].done
    decreases |y.msgs| - k
  {
    if k < |y.msgs| {
      if !y.msgs[k].done {
        EventKeepsLive(y, Expires(k, now));
        CleaningEndsWaits(Happen(y, Expires(k, now)), now, k + 1);
      } else {
        CleaningEndsWaits(y, now, k + 1);
      }
    }
  }

  /** Once all deadlines have passed, one cleaning pass lowers the flag and the next loop starts a new message. */
  lemma NeverWedged(y: System, now: nat)
    requires IsLive(y) && y.clock <= now && forall i | 0 <= i < |y.msgs| && !y.msgs[i].done :: now > y.msgs[i].deadline
    ensures var z := Cleaned(y, now, 0);
            !z.flag && |Happen(z, Loop(now)).msgs| == |y.msgs| + 1
  {
    CleaningEndsWaits(y, now, 0);
    var z := Cleaned(y, now, 0);
    assert forall i | 0 <= i < |z.msgs| :: z.msgs[i].done && !Waits(z.msgs[i]);
  }

  /* ---------- A message drops the successor at most once ---------- */

  /** The event makes message `i` call `pop_front`. */
  predicate Pops(y: System, e: Event, i: nat)
    requires CanHappen(y, e) && i < |y.msgs|
  {
    match e
    case Loop(_) => false
    case Reports(j, r, _) =>
      j == i && r.done && r.state == DONE && y.msgs[i].dependencies[0] == GET_PRED_AND_SUCC_LIST && r.peers == []
    case Expires(j, _) => j == i && |y.msgs[i].dependencies| == 1
  }

  function PopCount(y: System, events: seq<Event>, i: nat): nat
    requires Happens(y, events)
    decreases |events|
  {
    if events == [] then 0
    else (if i < |y.msgs| && Pops(y, events[0], i) then 1 else 0) + PopCount(Happen(y, events[0]), events[1..], i)
  }

  /** Over any run each message pops the successor at most once. */
  lemma {:induction false} PopsAtMostOnce(y: System, events: seq<Event>, i: nat)
    requires IsLive(y) && Happens(y, events)
    ensures PopCount(y, events, i) <= 1
    ensures i < |y.msgs| && (y.msgs[i].done || |y.msgs[i].dependencies| > 1) ==> PopCount(y, events, i) == 0
    decreases |events|
  {
    if events != [] {
      EventKeepsLive(y, events[0]);
      if i < |y.msgs| { assert IsWellFormed(y.msgs[i]); }
      PopsAtMostOnce(Happen(y, events[0]), events[1..], i);
    }
  }

  /** Every event leaves the table alone, replaces the whole list, or pops its front; it pops exactly when it `Pops`. */
  lemma OnlyPopsDrop(y: System, e: Event)
    requires CanHappen(y, e)
    ensures var z := Happen(y, e);
            if !e.Loop? && Pops(y, e, e.i) then z.table == WithoutFront(y.table)
            else z.table == y.table || exists peers :: z.table == WithSuccessorList(y.table, peers)
  {
    if e.Reports? && !Pops(y, e, e.i) && e.r.done && e.r.state == DONE {
      var peers := e.r.peers;
      match y.msgs[e.i].dependencies[0]
      case GET_PRED_AND_SUCC_LIST =>
        var front := if y.table.succs == [] then [] else [y.table.succs[0]];
        var list := front + if |peers| > 1 then peers[1..] else peers;
        assert Happen(y, e).table == y.table || Happen(y, e).table == WithSuccessorList(y.table, list);
      case GET_SELF_AND_SUCC_LIST => assert Happen(y, e).table == WithSuccessorList(y.table, peers);
      case _ =>
    }
  }

  /** What an observer of the table sees: message `i` made the list of successors shorter. */
  predicate Shortens(y: System, e: Event, i: nat)
    requires CanHappen(y, e)
  {
    !e.Loop? && e.i == i && |Happen(y, e).table.succs| < |y.table.succs|
  }

  /** A list gets shorter exactly by a pop of more than its last entry; the loop itself never touches the table. */
  lemma ShorterByPopsOnly(y: System, e: Event, i: nat)
    requires CanHappen(y, e) && i < |y.msgs| && |y.table.succs| <= SUCC_LIST_SIZE
    ensures Shortens(y, e, i) <==> Pops(y, e, i) && |y.table.succs| > 1
    ensures |Happen(y, e).table.succs| <= SUCC_LIST_SIZE && (e.Loop? ==> Happen(y, e).table == y.table)
  {
    OnlyPopsDrop(y, e);
  }

  function DropCount(y: System, events: seq<Event>, i: nat): nat
    requires Happens(y, events)
    decreases |events|
  {
    if events == [] then 0
    else (if Shortens(y, events[0], i) then 1 else 0) + DropCount(Happen(y, events[0]), events[1..], i)
  }

  /** Over any run each message costs the node at most one successor, and none once its first request was answered. */
  lemma {:induction false} DropsAtMostOnce(y: System, events: seq<Event>, i: nat)
    requires IsLive(y) && Happens(y, events) && |y.table.succs| <= SUCC_LIST_SIZE
    ensures DropCount(y, events, i) <= PopCount(y, events, i) <= 1
    ensures i < |y.msgs| && (y.msgs[i].done || |y.msgs[i].dependencies| > 1) ==> DropCount(y, events, i) == 0
    decreases |events|
  {
    PopsAtMostOnce(y, events, i);
    if events != [] {
      EventKeepsLive(y, events[0]);
      if i < |y.msgs| {
        ShorterByPopsOnly(y, events[0], i);
      } else {
        OnlyPopsDrop(y, events[0]);
      }
      DropsAtMostOnce(Happen(y, events[0]), events[1..], i);
    }
  }

  /* ---------- How many messages wait at once ---------- */

  /** At most one message waits, and exactly while the flag is up. */
  ghost predicate IsExclusive(y: System) {
    && (y.flag <==> exists i :: 0 <= i < |y.msgs| && Waits(y.msgs[i]))
    && (forall i, j | 0 <= i < |y.msgs| && 0 <= j < |y.msgs| && Waits(y.msgs[i]) && Waits(y.msgs[j]) :: i == j)
  }

  /** The failing message is itself waiting, or nobody is: otherwise it lowers a flag that is not its own. */
  ghost predicate IsOwnFailure(y: System, e: Event)
    requires CanHappen(y, e)
  {
    (e.Expires? || (e.Reports? && !(e.r.done && e.r.state == DONE))) ==>
      Waits(y.msgs[e.i]) || !exists j :: 0 <= j < |y.msgs| && Waits(y.msgs[j])
  }

  /** One event keeps "flag up exactly while the one waiting message waits" if and only if it is no stray failure. */
  lemma ExclusiveIffOwnFailure(y: System, e: Event)
    requires IsLive(y) && IsExclusive(y) && CanHappen(y, e)
    ensures IsExclusive(Happen(y, e)) <==> IsOwnFailure(y, e)
  {
    var z := Happen(y, e);
    match e
    case Loop(_) =>
      if !y.flag {
        assert forall i | 0 <= i < |y.msgs| :: z.msgs[i] == y.msgs[i];
        assert z.flag ==> Waits(z.msgs[|y.msgs|]);
      }
    case Reports(i, r, now) =>
      assert IsWellFormed(y.msgs[i]);
      assert forall j | 0 <= j < |y.msgs| && j != i :: z.msgs[j] == y.msgs[j];
      assert Waits(z.msgs[i]) ==> z.flag == y.flag;
    case Expires(i, _) =>
      assert forall j | 0 <= j < |y.msgs| && j != i :: z.msgs[j] == y.msgs[j];
  }

  predicate Comes(y: System, events: seq<Event>, z: System) {
    Happens(y, events) && After(y, events) == z
  }

  lemma {:induction false} OneMore(y: System, events: seq<Event>, z: System, e: Event, z': System)
    requires Comes(y, events, z) && CanHappen(z, e) && Happen(z, e) == z'
    ensures Comes(y, events + [e], z')
    decreases |events|
  {
    var more := events + [e];
    if events == [] {
      assert more[1..] == [];
    } else {
      OneMore(Happen(y, events[0]), events[1..], z, e, z');
      assert more[0] == events[0] && more[1..] == events[1..] + [e];
    }
  }

  /** A message asking its successor since `now`. */
  function Asking(now: nat): Stabilizer {
    Stabilizer(VALID, false, now + DURATION, [GET_PRED_AND_SUCC_LIST])
  }

  lemma AskingStarts(t: Table, msgs: seq<Stabilizer>, clock: nat, now: nat)
    requires t.succs != [] && clock <= now
    ensures Happen(System(t, false, msgs, clock), Loop(now)) == System(t, true, msgs + [Asking(now)], now)
  {
    assert [GET_PRED_AND_SUCC_LIST] + [] == [GET_PRED_AND_SUCC_LIST];
  }

  lemma AnswerIsTaken(t: Table, now: nat, later: nat)
    requires t == Table(Some("a"), Some("b"), ["b"]) && now <= later
    ensures var y, e := System(t, true, [Asking(now)], now), Reports(0, Report(true, DONE, ["a", "a"]), later);
            var m := Stabilizer(VALID, false, later + DURATION, [NOTIFICATION, GET_PRED_AND_SUCC_LIST]);
            CanHappen(y, e) && Happen(y, e) == System(WithSuccessorList(t, ["b", "a"]), false, [m], later)
  {
    BetweenFullCircle("a", "b");
    assert ["b"] + ["a", "a"][1..] == ["b", "a"];
    var m := Stabilizer(VALID, false, later + DURATION, [NOTIFICATION, GET_PRED_AND_SUCC_LIST]);
    assert [NOTIFICATION] + [GET_PRED_AND_SUCC_LIST] == m.dependencies;
    assert [Asking(now)][0 := m] == [m];
  }

  lemma NotificationExpires(t: Table, deadline: nat, other: Stabilizer, clock: nat, now: nat)
    requires clock <= now && deadline < now
    ensures var first := Stabilizer(VALID, false, deadline, [NOTIFICATION, GET_PRED_AND_SUCC_LIST]);
            var y := System(t, true, [first, other], clock);
            && CanHappen(y, Expires(0, now))
            && Happen(y, Expires(0, now)) == System(t, false, [first.(state := FAILED, done := true), other], now)
  {
    var first := Stabilizer(VALID, false, deadline, [NOTIFICATION, GET_PRED_AND_SUCC_LIST]);
    var dead := first.(state := FAILED, done := true);
    assert [first, other][0 := dead] == [dead, other];
  }

  /** A stray failure: the first message's unanswered notification expires while a second waits, and a third starts. */
  lemma TwoMayWaitAtOnce() returns (start: System, events: seq<Event>)
    ensures start == System(Table(Some("a"), Some("b"), ["b"]), false, [], 0) && Happens(start, events)
    ensures var y := After(start, events); |y.msgs| == 3 && Waits(y.msgs[1]) && Waits(y.msgs[2])
  {
    var t := Table(Some("a"), Some("b"), ["b"]);
    var t' := WithSuccessorList(t, ["b", "a"]);
    var first := Stabilizer(VALID, false, 1 + DURATION, [NOTIFICATION, GET_PRED_AND_SUCC_LIST]);
    var dead := first.(state := FAILED, done := true);
    var report := Reports(0, Report(true, DONE, ["a", "a"]), 1);
    start := System(t, false, [], 0);
    AskingStarts(t, [], 0, 0);
    OneMore(start, [], start, Loop(0), System(t, true, [Asking(0)], 0));
    AnswerIsTaken(t, 0, 1);
    OneMore(start, [Loop(0)], System(t, true, [Asking(0)], 0), report, System(t', false, [first], 1));
    events := [Loop(0)] + [report];
    AskingStarts(t', [first], 1, 9000);
    OneMore(start, events, System(t', false, [first], 1), Loop(9000), System(t', true, [first, Asking(9000)], 9000));
    events := events + [Loop(9000)];
    NotificationExpires(t', 1 + DURATION, Asking(9000), 9000, 10002);
    OneMore(start, events, System(t', true, [first, Asking(9000)], 9000),
            Expires(0, 10002), System(t', false, [dead, Asking(9000)], 10002));
    events := events + [Expires(0, 10002)];
    AskingStarts(t', [dead, Asking(9000)], 10002, 10003);
    OneMore(start, events, System(t', false, [dead, Asking(9000)], 10002),
            Loop(10003), System(t', true, [dead, Asking(9000), Asking(10003)], 10003));
    events := events + [Loop(10003)];
  }
}
