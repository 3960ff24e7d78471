/** The message objects of the maintenance protocol, phase by phase, acting on their node's routing table. */
module Messages {
  import opened Identifiers
  import opened RoutingTables
  import opened FindSuccessors
  import opened Maintenance

  datatype MessageState = FAILED | TIMEDOUT | VALID | DONE
  datatype MessageType =
    | NOTIFICATION
    | QUERY
    | FIND_SUCCESSOR
    | GET_SUCCESSOR_LIST
    | GET_SELF_AND_SUCC_LIST
    | GET_PRED_AND_SUCC_LIST

  const DURATION: nat := 10000

  /** Requests and answers handed to the send queue. */
  datatype Outgoing =
    | Asks(kind: MessageType, to: Id)
    | Notifies(to: Id, from: Id)
    | AsksSuccessorOf(id: Id, to: Id)
    | Answers(peers: seq<Id>)

  /** What a dependency that reports to its parent has come to. */
  datatype Report = Report(done: bool, state: MessageState, peers: seq<Id>)

  class Flag {
    var value: bool
    constructor (value: bool)
      ensures this.value == value
    {
      this.value := value;
    }
  }

  /* ---------- Stabilize ---------- */

  /** A `Stabilize` message; `dependencies` lists its sub-requests, latest first. */
  datatype Stabilizer = Stabilizer(state: MessageState, done: bool, deadline: nat, dependencies: seq<MessageType>)

  /** A stabilizing message with the state it shares with the rest of its node. */
  datatype Context = Context(table: Table, flag: bool, msg: Stabilizer, sent: seq<Outgoing>)

  function GivenUp(x: Context): Context {
    x.(flag := false, msg := x.msg.(state := FAILED, done := true))
  }

  /** A notification goes out only from a named node with a successor; it is waited for either way. */
  function WithNotification(x: Context): Context {
    var sends := x.table.self.Some? && x.table.SelfId() != NO_ID && x.table.succs != [];
    x.(msg := x.msg.(dependencies := [NOTIFICATION] + x.msg.dependencies),
       sent := if sends then x.sent + [Notifies(x.table.succs[0], x.table.SelfId())] else x.sent)
  }

  function Started(x: Context): Context {
    if x.table.succs == [] then GivenUp(x)
    else x.(msg := x.msg.(dependencies := [GET_PRED_AND_SUCC_LIST] + x.msg.dependencies),
            sent := x.sent + [Asks(GET_PRED_AND_SUCC_LIST, x.table.succs[0])])
  }

  function WithPredReply(x: Context, peers: seq<Id>, now: nat): Context {
    var (t, reaction) := OnPredReply(x.table, peers);
    var y := x.(table := t, msg := x.msg.(deadline := now + DURATION));
    match reaction
    case Fails => GivenUp(y)
    case NotifiesSuccessor => WithNotification(y.(flag := false))
    case AsksCloserNode(peer) =>
      y.(msg := y.msg.(dependencies := [GET_SELF_AND_SUCC_LIST] + y.msg.dependencies),
         sent := y.sent + [Asks(GET_SELF_AND_SUCC_LIST, peer)])
  }

  function WithSelfReply(x: Context, peers: seq<Id>, now: nat): Context {
    var y := x.(table := WithSuccessorList(x.table, peers), flag := false);
    WithNotification(y.(msg := y.msg.(deadline := now + DURATION)))
  }

  /** The latest dependency reports. */
  function WithReport(x: Context, r: Report, now: nat): Context
    requires x.msg.dependencies != []
  {
    if !r.done || r.state != DONE then GivenUp(x)
    else match x.msg.dependencies[0]
      case GET_PRED_AND_SUCC_LIST => WithPredReply(x, r.peers, now)
      case GET_SELF_AND_SUCC_LIST => WithSelfReply(x, r.peers, now)
      case NOTIFICATION => x.(msg := x.msg.(state := DONE, done := true))
      case _ => x
  }

  /** `handle_failed`: a first request that failed costs the node its successor. */
  function WithFailure(x: Context): Context {
    x.(table := if |x.msg.dependencies| == 1 then WithoutFront(x.table) else x.table,
       flag := false, msg := x.msg.(state := FAILED))
  }

  class Stabilize {
    const table: RoutingTable
    const flag: Flag
    var state: MessageState
    var isDone: bool
    var timePoint: nat
    var dependencies: seq<MessageType>
    var sent: seq<Outgoing>

    function View(): Context
      reads this, table, flag
    {
      Context(table.View(), flag.value, Stabilizer(state, isDone, timePoint, dependencies), sent)
    }

    constructor (table: RoutingTable, flag: Flag, now: nat)
      ensures this.table == table && this.flag == flag
      ensures View() == Context(table.View(), flag.value, Stabilizer(VALID, false, now + DURATION, []), [])
    {
      this.table, this.flag := table, flag;
      state, isDone, timePoint, dependencies, sent := VALID, false, now + DURATION, [], [];
    }

    method GiveUp()
      modifies this, flag
      ensures View() == GivenUp(old(View()))
    {
      state := FAILED;
      flag.value := false;
      isDone := true;
    }

    method CreateRequest()
      modifies this, flag
      ensures View() == Started(old(View()))
    {
      var found, target := table.TryGetSuccessor();
      if !found {
        GiveUp();
        return;
      }
      dependencies := [GET_PRED_AND_SUCC_LIST] + dependencies;
      sent := sent + [Asks(GET_PRED_AND_SUCC_LIST, target)];
    }

    method CreateNotification()
      modifies this
      ensures View() == WithNotification(old(View()))
    {
      dependencies := [NOTIFICATION] + dependencies;
      var hasSelf, self := table.TryGetSelf();
      if !hasSelf || self == NO_ID { return; }
      var hasTarget, target := table.TryGetSuccessor();
      if !hasTarget { return; }
      sent := sent + [Notifies(target, self)];
    }

    method HandleGetPredAndSuccList(peers: seq<Id>, now: nat)
      modifies this, flag, table
      ensures View() == WithPredReply(old(View()), peers, now)
    {
      timePoint := now + DURATION;
      if peers == [] {
        var _ := table.PopFront();
        flag.value := false;
        CreateNotification();
        return;
      }
      var hasSelf, self := table.TryGetSelf();
      if !hasSelf {
        GiveUp();
        return;
      }
      var successorsPredecessor := peers[0];
      var list := if |peers| > 1 then peers[1..] else peers;
      var hasSuccessor, successor := table.TryGetSuccessor();
      if !hasSuccessor {
        GiveUp();
        return;
      }
      list := [successor] + list;
      table.ReplaceSuccessorList(list);
      if Between(self, successorsPredecessor, successor) {
        dependencies := [GET_SELF_AND_SUCC_LIST] + dependencies;
        sent := sent + [Asks(GET_SELF_AND_SUCC_LIST, successorsPredecessor)];
      } else {
        CreateNotification();
        flag.value := false;
      }
    }

    method HandleGetSelfAndSuccList(peers: seq<Id>, now: nat)
      modifies this, flag, table
      ensures View() == WithSelfReply(old(View()), peers, now)
    {
      timePoint := now + DURATION;
      table.ReplaceSuccessorList(peers);
      flag.value := false;
      CreateNotification();
    }

    method HandleNotification(r: Report, now: nat)
      requires dependencies != []
      modifies this, flag, table
      ensures View() == WithReport(old(View()), r, now)
    {
      if !r.done || r.state != DONE {
        GiveUp();
        return;
      }
      match dependencies[0]
      case GET_PRED_AND_SUCC_LIST => HandleGetPredAndSuccList(r.peers, now);
      case GET_SELF_AND_SUCC_LIST => HandleGetSelfAndSuccList(r.peers, now);
      case NOTIFICATION =>
        state := DONE;
        isDone := true;
      case _ =>
    }

    method HandleFailed()
      modifies this, flag, table
      ensures View() == WithFailure(old(View()))
    {
      if |dependencies| == 1 {
        var _ := table.PopFront();
      }
      state := FAILED;
      flag.value := false;
    }
  }

  /* ---------- Notification ---------- */

  class Notification {
    const table: RoutingTable
    var state: MessageState
    var isDone: bool
    var sent: seq<Outgoing>

    constructor (table: RoutingTable)
      ensures this.table == table && state == VALID && !isDone && sent == []
    {
      this.table := table;
      state, isDone, sent := VALID, false, [];
    }

    /** The first notification a node receives is taken but never answered. */
    method HandleRequest(peers: seq<Id>)
      modifies this, table
      ensures |peers| != 1 ==>
                table.View() == old(table.View()) && state == FAILED && unchanged(this`isDone) && unchanged(this`sent)
      ensures |peers| == 1 ==>
                && table.View() == Notified(old(table.View()), peers[0])
                && (if old(table.View()).pred.None?
                    then state == FAILED && unchanged(this`isDone) && unchanged(this`sent)
                    else state == DONE && isDone && sent == old(sent) + [Answers([])])
    {
      if |peers| != 1 {
        state := FAILED;
        return;
      }
      var notifyPeer := peers[0];
      var hasPredecessor := table.HasPredecessor();
      if !hasPredecessor {
        table.SetPredecessor(notifyPeer);
        state := FAILED;
        return;
      }
      var _, predecessor := table.TryGetPredecessor();
      var _, self := table.TryGetSelf();
      if Between(predecessor, notifyPeer, self) {
        table.SetPredecessor(notifyPeer);
      }
      sent := sent + [Answers([])];
      state := DONE;
      isDone := true;
    }
  }

  /* ---------- The two list requests ---------- */

  method HandlePredAndSuccListRequest(table: RoutingTable) returns (answer: seq<Id>)
    ensures answer == PredAndList(table.View())
  {
    var found, predecessor := table.TryGetPredecessor();
    answer := [];
    if found {
      answer := [predecessor] + table.successorList;
    }
  }

  method HandleSelfAndSuccListRequest(table: RoutingTable) returns (answer: seq<Id>)
    ensures answer == SelfAndList(table.View())
  {
    var _, self := table.TryGetSelf();
    answer := [self] + table.successorList;
  }

  /* ---------- Join ---------- */

  class Join {
    const table: RoutingTable
    const target: Id
    var state: MessageState
    var isDone: bool
    var timePoint: nat
    var dependencies: seq<MessageType>
    var sent: seq<Outgoing>

    constructor (table: RoutingTable, target: Id, now: nat)
      ensures this.table == table && this.target == target
      ensures state == VALID && !isDone && timePoint == now + DURATION && dependencies == [QUERY] && sent == []
    {
      this.table, this.target := table, target;
      state, isDone, timePoint, dependencies, sent := VALID, false, now + DURATION, [QUERY], [];
    }

    /** Query, lookup and list request follow each other; any that fails ends the join. */
    method HandleNotification(r: Report, now: nat)
      requires dependencies != []
      requires dependencies[0] == FIND_SUCCESSOR || dependencies[0] == QUERY ==> r.peers != []
      requires dependencies[0] == GET_SUCCESSOR_LIST ==> table.View().succs != []
      modifies this, table
      ensures !r.done || r.state != DONE ==>
                && state == FAILED && isDone && table.View() == old(table.View()) && sent == old(sent)
                && dependencies == old(dependencies) && timePoint == old(timePoint)
      ensures r.done && r.state == DONE ==>
                var t := old(table.View());
                match old(dependencies)[0]
                case QUERY =>
                  && table.View() == t && unchanged(this`state) && unchanged(this`isDone)
                  && dependencies == [FIND_SUCCESSOR] && timePoint == now + DURATION
                  && sent == old(sent) + [AsksSuccessorOf(r.peers[0], target)]
                case FIND_SUCCESSOR =>
                  && table.View() == WithSuccessor(t, r.peers[0]) && dependencies == [GET_SUCCESSOR_LIST]
                  && unchanged(this`state) && unchanged(this`isDone)
                  && timePoint == now + DURATION && sent == old(sent) + [Asks(GET_SUCCESSOR_LIST, r.peers[0])]
                case GET_SUCCESSOR_LIST =>
                  && table.View() == WithListAfterSuccessor(t, r.peers) && state == DONE && isDone && sent == old(sent)
                  && dependencies == old(dependencies) && timePoint == old(timePoint)
                case _ => table.View() == t && unchanged(this)
    {
      if !r.done || r.state != DONE {
        state := FAILED;
        isDone := true;
        return;
      }
      match dependencies[0]
      case QUERY =>
        dependencies := [FIND_SUCCESSOR];
        timePoint := now + DURATION;
        sent := sent + [AsksSuccessorOf(r.peers[0], target)];
      case FIND_SUCCESSOR =>
        table.SetSuccessor(r.peers[0]);
        dependencies := [GET_SUCCESSOR_LIST];
        timePoint := now + DURATION;
        sent := sent + [Asks(GET_SUCCESSOR_LIST, r.peers[0])];
      case GET_SUCCESSOR_LIST =>
        table.ReplaceAfterSuccessor(r.peers);
        state := DONE;
        isDone := true;
      case _ =>
    }
  }

  /* ---------- Relayed lookups ---------- */

  /** A lookup request being served: answered at once, or forwarded and its answer passed back unchanged. */
  class LookupHandler {
    const table: RoutingTable
    const id: Id
    var state: MessageState
    var isDone: bool
    var sent: seq<Outgoing>

    constructor (table: RoutingTable, id: Id)
      ensures this.table == table && this.id == id && state == VALID && !isDone && sent == []
    {
      this.table, this.id := table, id;
      state, isDone, sent := VALID, false, [];
    }

    method HandleRequest()
      requires table.View().self.Some?
      modifies this
      ensures var t := table.View();
              if Find(t, id).Some?
              then sent == old(sent) + [Answers([Find(t, id).value])] && state == DONE && isDone
              else sent == old(sent) + [AsksSuccessorOf(id, ClosestPreceding(t, id).value)]
                   && unchanged(this`state) && unchanged(this`isDone)
    {
      var finder := new FindSuccessor(table);
      var successor := finder.FindSuccessor(id);
      if successor.None? {
        var hop := finder.ClosestPrecedingNode(id);
        sent := sent + [AsksSuccessorOf(id, hop.value)];
        return;
      }
      sent := sent + [Answers([successor.value])];
      state := DONE;
      isDone := true;
    }

    method HandleForwardedResponse(peers: seq<Id>)
      requires peers != []
      modifies this
      ensures sent == old(sent) + [Answers([peers[0]])] && state == DONE && isDone
    {
      sent := sent + [Answers([peers[0]])];
      state := DONE;
      isDone := true;
    }
  }
}
