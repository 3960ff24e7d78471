/** What one node does with its routing table when a maintenance message reaches it. */
module Maintenance {
  import opened Identifiers
  import opened RoutingTables

  /** Answer to `get_predecessor_and_succ_list`: the predecessor in front of the list, nothing without one. */
  function PredAndList(t: Table): seq<Id> {
    if t.pred.None? then [] else [t.pred.value] + t.succs
  }

  /** Answer to `get_self_and_successor_list`. */
  function SelfAndList(t: Table): seq<Id> {
    [t.SelfId()] + t.succs
  }

  /** The table of a node notified by `peer`. */
  function Notified(t: Table, peer: Id): Table {
    if t.pred.None? || Between(t.pred.value, peer, t.SelfId()) then t.(pred := Some(peer)) else t
  }

  /** What a stabilizing node does next. */
  datatype Reaction = Fails | AsksCloserNode(peer: Id) | NotifiesSuccessor

  /** The successor's predecessor and list arrive at a stabilizing node. */
  function OnPredReply(t: Table, peers: seq<Id>): (Table, Reaction) {
    if peers == [] then (WithoutFront(t), NotifiesSuccessor)
    else if t.self.None? || t.succs == [] then (t, Fails)
    else
      var rest := if |peers| > 1 then peers[1..] else peers;
      var t' := WithSuccessorList(t, [t.succs[0]] + rest);
      (t', if Between(t.self.value, peers[0], t.succs[0]) then AsksCloserNode(peers[0]) else NotifiesSuccessor)
  }

  /** The successor stays in front of what its answer lists behind the predecessor, or of a lone predecessor. */
  lemma AnswerIsTakenOver(t: Table, peers: seq<Id>, i: nat)
    ensures var (r, reaction), rest := OnPredReply(t, peers), if |peers| > 1 then peers[1..] else peers;
            && r.self == t.self && r.pred == t.pred
            && (reaction.Fails? <==> peers != [] && (t.self.None? || t.succs == []))
            && (reaction.Fails? ==> r == t)
            && (peers != [] && !reaction.Fails? && i < SUCC_LIST_SIZE ==>
                  && |r.succs| == SUCC_LIST_SIZE
                  && r.succs[i] == if i == 0 then t.succs[0] else if i <= |rest| then rest[i - 1] else NO_ID)
  {
  }

  /** Both answers tell who comes first, and then the whole list of their sender. */
  lemma AnswersTellTheList(t: Table)
    ensures var peers := SelfAndList(t); peers != [] && peers[0] == t.SelfId() && peers[1..] == t.succs
    ensures var peers := PredAndList(t);
            if t.pred.None? then peers == [] else peers != [] && peers[0] == t.pred.value && peers[1..] == t.succs
  {
  }
}
