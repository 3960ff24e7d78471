/**
 * The Chord ring as a state machine: joins, stabilization and notifications of any finite number of nodes,
 * interleaved in any order, with every answer free to be stale when it arrives.
 */
module Rings {
  import opened Identifiers
  import opened RoutingTables
  import opened FindSuccessors
  import opened Maintenance
  import opened Paths

  /** Progress of a node's `Stabilize` message; an answer carries what its sender knew when it answered. */
  datatype Stabilizing =
    | Resting
    | AskedPred(target: Id)
    | GotPred(target: Id, peers: seq<Id>)
    | AskedSelf(target: Id)
    | GotSelf(target: Id, peers: seq<Id>)

  /** Progress of a node's `Join` message; `at` is the node now holding the relayed lookup. */
  datatype Joining =
    | Outside
    | Searching(at: Id)
    | Located(peer: Id)
    | Linked(peer: Id)
    | GotList(peers: seq<Id>)
    | Joined

  datatype Node = Node(table: Table, stabilizing: Stabilizing, joining: Joining) {
    predicate IsMember() { joining.Linked? || joining.GotList? || joining.Joined? }
  }

  /** `notices` holds every notify request ever sent, as (from, to): it may arrive late and more than once. */
  datatype State = State(nodes: map<Id, Node>, notices: set<(Id, Id)>)

  datatype Step =
    | AskPred(n: Id)
    | AnswerPred(n: Id)
    | TakePred(n: Id)
    | AnswerSelf(n: Id)
    | TakeSelf(n: Id)
    | Deliver(n: Id, from: Id)
    | StartJoin(n: Id, host: Id)
    | Search(n: Id)
    | Link(n: Id)
    | AnswerList(n: Id)
    | FinishJoin(n: Id)

  predicate IsMember(s: State, n: Id) {
    n in s.nodes && s.nodes[n].IsMember()
  }

  /** A step is possible.  `TakePred` excludes the answer that would make the node drop its successor. */
  predicate Can(s: State, step: Step) {
    step.n in s.nodes &&
    var node := s.nodes[step.n];
    match step
    case AskPred(n) => node.stabilizing.Resting? && node.table.succs != []
    case AnswerPred(n) => node.stabilizing.AskedPred? && node.stabilizing.target in s.nodes
    case TakePred(n) => node.stabilizing.GotPred? && (node.stabilizing.peers != [] || |node.table.succs| <= 1)
    case AnswerSelf(n) => node.stabilizing.AskedSelf? && node.stabilizing.target in s.nodes
    case TakeSelf(n) => node.stabilizing.GotSelf?
    case Deliver(n, from) => (from, n) in s.notices
    case StartJoin(n, host) => node.joining.Outside? && IsMember(s, host)
    case Search(n) => node.joining.Searching? && node.joining.at in s.nodes && s.nodes[node.joining.at].table.self.Some?
    case Link(n) => node.joining.Located? && node.stabilizing.Resting?
    case AnswerList(n) => node.joining.Linked? && node.joining.peer in s.nodes
    case FinishJoin(n) => node.joining.GotList? && node.table.succs != []
  }

  function Updated(s: State, n: Id, node: Node): State {
    s.(nodes := s.nodes[n := node])
  }

  /** `n` stops stabilizing with table `t` and notifies its successor, if it has one. */
  function Notifying(s: State, n: Id, t: Table): State
    requires n in s.nodes
  {
    var s' := Updated(s, n, s.nodes[n].(table := t, stabilizing := Resting));
    if t.succs == [] then s' else s'.(notices := s.notices + {(n, t.succs[0])})
  }

  function Do(s: State, step: Step): State
    requires Can(s, step)
  {
    var n := step.n;
    var node := s.nodes[n];
    match step
    case AskPred(_) => Updated(s, n, node.(stabilizing := AskedPred(node.table.succs[0])))
    case AnswerPred(_) =>
      var f := node.stabilizing.target;
      Updated(s, n, node.(stabilizing := GotPred(f, PredAndList(s.nodes[f].table))))
    case TakePred(_) =>
      var (t, reaction) := OnPredReply(node.table, node.stabilizing.peers);
      (match reaction
       case Fails => Updated(s, n, node.(table := t, stabilizing := Resting))
       case AsksCloserNode(x) => Updated(s, n, node.(table := t, stabilizing := AskedSelf(x)))
       case NotifiesSuccessor => Notifying(s, n, t))
    case AnswerSelf(_) =>
      var x := node.stabilizing.target;
      Updated(s, n, node.(stabilizing := GotSelf(x, SelfAndList(s.nodes[x].table))))
    case TakeSelf(_) => Notifying(s, n, WithSuccessorList(node.table, node.stabilizing.peers))
    case Deliver(_, from) => Updated(s, n, node.(table := Notified(node.table, from)))
    case StartJoin(_, host) => Updated(s, n, node.(joining := Searching(host)))
    case Search(_) =>
      var t := s.nodes[node.joining.at].table;
      Updated(s, n, node.(joining := if Find(t, n).Some? then Located(Find(t, n).value)
                                     else Searching(ClosestPreceding(t, n).value)))
    case Link(_) =>
      var f := node.joining.peer;
      Updated(s, n, node.(table := WithSuccessor(node.table, f), joining := Linked(f)))
    case AnswerList(_) => Updated(s, n, node.(joining := GotList(s.nodes[node.joining.peer].table.succs)))
    case FinishJoin(_) =>
      Updated(s, n, node.(table := WithListAfterSuccessor(node.table, node.joining.peers), joining := Joined))
  }

  /** Every node starts as its own successor; `creator` alone is a ring. */
  function Start(ring: Ring, creator: Id): State {
    State(map n | n in ring :: Node(Table(Some(n), None, [n]), Resting, if n == creator then Joined else Outside), {})
  }

  /* ---------- Edges and paths of a state ---------- */

  ghost predicate IsShaped(ring: Ring, s: State) {
    && IsRing(ring) && NO_ID !in ring
    && (forall n :: n in ring <==> n in s.nodes)
    && (forall n {:trigger Front(s, n)} | n in s.nodes ::
          s.nodes[n].table.self == Some(n) && 0 < |s.nodes[n].table.succs| <= SUCC_LIST_SIZE && Front(s, n) in ring)
  }

  function Front(s: State, n: Id): Id {
    if n in s.nodes && s.nodes[n].table.succs != [] then s.nodes[n].table.succs[0] else NO_ID
  }

  ghost predicate AreSuccessors(s: State, succ: Edges) {
    succ.Keys == s.nodes.Keys && forall n {:trigger Next(succ, n)} :: Next(succ, n) == Front(s, n)
  }

  /** The first successor of every node. */
  ghost function Successors(ring: Ring, s: State): (succ: Edges)
    requires IsShaped(ring, s)
    ensures AreSuccessors(s, succ) && IsEdges(ring, succ)
  {
    assert AreSuccessors(s, map n | n in s.nodes :: Front(s, n));
    var succ :| AreSuccessors(s, succ);
    succ
  }

  /** From `a`, first successors lead to `b` without jumping over it. */
  ghost predicate Path(ring: Ring, s: State, a: Id, b: Id)
    requires IsShaped(ring, s) && a in ring && b in ring
  {
    Reaches(ring, Successors(ring, s), a, b)
  }

  ghost predicate KeepsPaths(ring: Ring, s: State, s': State)
    requires IsShaped(ring, s) && IsShaped(ring, s')
  {
    forall a, b {:trigger Path(ring, s, a, b)} {:trigger Path(ring, s', a, b)} | a in ring && b in ring ::
      Path(ring, s, a, b) ==> Path(ring, s', a, b)
  }

  /* ---------- The invariant ---------- */

  /** A list entry of `n` is a member, padding or `n` itself. */
  predicate Known(s: State, n: Id, p: Id) {
    p == NO_ID || p == n || IsMember(s, p)
  }

  predicate AllKnown(s: State, n: Id, peers: seq<Id>) {
    forall p | p in peers :: Known(s, n, p)
  }

  /** `x` may be taken for a predecessor of `y`: there is a way from `x` to `y`. */
  ghost predicate Claim(ring: Ring, s: State, x: Id, y: Id)
    requires IsShaped(ring, s)
  {
    x in ring && y in ring && (x == y || IsMember(s, x)) && Path(ring, s, x, y)
  }

  ghost predicate StabilizingOk(ring: Ring, s: State, n: Id)
    requires IsShaped(ring, s) && n in s.nodes
  {
    match s.nodes[n].stabilizing
    case Resting => true
    case AskedPred(f) => f == Front(s, n)
    case GotPred(f, peers) =>
      && f == Front(s, n) && AllKnown(s, n, peers) && |peers| != 1
      && (peers != [] ==> Claim(ring, s, peers[0], f))
    case AskedSelf(x) => Between(n, x, Front(s, n)) && Claim(ring, s, x, Front(s, n))
    case GotSelf(x, peers) =>
      && Between(n, x, Front(s, n)) && Claim(ring, s, x, Front(s, n))
      && peers != [] && peers[0] == x && AllKnown(s, n, peers)
  }

  ghost predicate JoiningOk(s: State, c: Id, n: Id)
    requires n in s.nodes
  {
    match s.nodes[n].joining
    case Outside => n != c
    case Searching(at) => n != c && (at == NO_ID || IsMember(s, at))
    case Located(f) => n != c && f != n && IsMember(s, f) && (f == c || Between(n, f, c))
    case Linked(f) => IsMember(s, f)
    case GotList(peers) => AllKnown(s, n, peers)
    case Joined => true
  }

  /** The successor of a joined node is joined, and leads to the creator; other nodes stand alone. */
  ghost predicate TableOk(ring: Ring, s: State, c: Id, n: Id)
    requires IsShaped(ring, s) && c in ring && n in s.nodes
  {
    var t := s.nodes[n].table;
    && AllKnown(s, n, t.succs)
    && (if IsMember(s, n) then IsMember(s, Front(s, n)) && Path(ring, s, n, c) else Front(s, n) == n)
    && (t.pred.Some? ==> Claim(ring, s, t.pred.value, n))
  }

  ghost predicate NodeOk(ring: Ring, s: State, c: Id, n: Id)
    requires IsShaped(ring, s) && c in ring && n in s.nodes
  {
    TableOk(ring, s, c, n) && StabilizingOk(ring, s, n) && JoiningOk(s, c, n)
  }

  ghost predicate Inv(ring: Ring, c: Id, s: State) {
    && IsShaped(ring, s) && c in ring && IsMember(s, c)
    && (forall n {:trigger NodeOk(ring, s, c, n)} | n in s.nodes :: NodeOk(ring, s, c, n))
    && (forall m | m in s.notices :: Claim(ring, s, m.0, m.1))
  }
}
