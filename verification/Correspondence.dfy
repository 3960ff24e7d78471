/** The message objects of one node do what the steps of the ring say: same tables, same requests, same notices. */
module Correspondence {
  import opened Identifiers
  import opened RoutingTables
  import opened Messages
  import opened Rings
  import opened Dropping

  /** `x` is the context of a `Stabilize` message of node `n`, whose table is in order. */
  predicate IsContextOf(x: Context, s: State, n: Id) {
    && n in s.nodes && x.table == s.nodes[n].table
    && x.table.self == Some(n) && n != NO_ID && x.table.succs != []
  }

  function Answered(peers: seq<Id>): Report {
    Report(true, DONE, peers)
  }

  /** The first request goes to the successor. */
  lemma StartFollowsRing(s: State, n: Id, x: Context)
    requires IsContextOf(x, s, n) && s.nodes[n].stabilizing.Resting?
    ensures var y, s' := Started(x), Do(s, AskPred(n));
            && s'.nodes[n].stabilizing == AskedPred(Front(s, n)) && y.table == s'.nodes[n].table
            && y.sent == x.sent + [Asks(GET_PRED_AND_SUCC_LIST, Front(s, n))]
            && y.msg.dependencies == [GET_PRED_AND_SUCC_LIST] + x.msg.dependencies
            && y.flag == x.flag && y.msg.state == x.msg.state && y.msg.done == x.msg.done
            && y.msg.deadline == x.msg.deadline
  {
  }

  /** A notification is sent, and waited for. */
  predicate HasNotified(x: Context, y: Context, to: Id, from: Id) {
    && y.sent == x.sent + [Notifies(to, from)]
    && y.msg.dependencies == [NOTIFICATION] + x.msg.dependencies && !y.flag
  }

  /** What stays as it was while an answer is dealt with, and when time is up next. */
  predicate GoesOn(x: Context, y: Context, now: nat) {
    y.msg.state == x.msg.state && y.msg.done == x.msg.done && y.msg.deadline == now + DURATION
  }

  /**
   * The successor's answer: the closer node is asked exactly when the ring's node asks it, and the successor notified
   * exactly when the ring's node notifies it.
   */
  lemma ListAnswerFollowsRing(s: State, n: Id, x: Context, now: nat)
    requires IsContextOf(x, s, n) && Can(s, TakePred(n))
    requires x.msg.dependencies != [] && x.msg.dependencies[0] == GET_PRED_AND_SUCC_LIST
    ensures var y := WithReport(x, Answered(s.nodes[n].stabilizing.peers), now);
            var s' := Do(s, TakePred(n));
            && y.table == s'.nodes[n].table && GoesOn(x, y, now)
            && match s'.nodes[n].stabilizing
               case AskedSelf(p) =>
                 && y.sent == x.sent + [Asks(GET_SELF_AND_SUCC_LIST, p)] && y.flag == x.flag
                 && y.msg.dependencies == [GET_SELF_AND_SUCC_LIST] + x.msg.dependencies
                 && s'.notices == s.notices
               case Resting =>
                 HasNotified(x, y, Front(s', n), n) && s'.notices == s.notices + {(n, Front(s', n))}
               case _ => false
  {
  }

  /** An empty answer: the message drops and notifies as the node in the ring does. */
  lemma EmptyAnswerFollowsRing(s: State, n: Id, x: Context, now: nat)
    requires IsContextOf(x, s, n)
    requires x.msg.dependencies != [] && x.msg.dependencies[0] == GET_PRED_AND_SUCC_LIST
    ensures var y, s' := WithReport(x, Answered([]), now), Dropped(s, n);
            && y.table == s'.nodes[n].table && GoesOn(x, y, now)
            && HasNotified(x, y, Front(s', n), n) && s'.notices == s.notices + {(n, Front(s', n))}
            && s'.nodes[n].stabilizing.Resting?
  {
  }

  /** The closer node's answer. */
  lemma CloserAnswerFollowsRing(s: State, n: Id, x: Context, now: nat)
    requires IsContextOf(x, s, n) && Can(s, TakeSelf(n))
    requires x.msg.dependencies != [] && x.msg.dependencies[0] == GET_SELF_AND_SUCC_LIST
    ensures var y := WithReport(x, Answered(s.nodes[n].stabilizing.peers), now);
            var s' := Do(s, TakeSelf(n));
            && y.table == s'.nodes[n].table && GoesOn(x, y, now)
            && HasNotified(x, y, Front(s', n), n) && s'.notices == s.notices + {(n, Front(s', n))}
            && s'.nodes[n].stabilizing.Resting?
  {
  }

  /** The answered notification ends the message in success, and nothing else. */
  lemma NotificationAnswered(x: Context, peers: seq<Id>, now: nat)
    requires x.msg.dependencies != [] && x.msg.dependencies[0] == NOTIFICATION
    ensures var y := WithReport(x, Answered(peers), now);
            && y.msg.done && y.msg.state == DONE && y.table == x.table && y.flag == x.flag && y.sent == x.sent
            && y.msg.dependencies == x.msg.dependencies && y.msg.deadline == x.msg.deadline
  {
  }

  /** Whoever has no name or no successor notifies nobody, but waits for a notification all the same. */
  lemma NobodyIsNotified(x: Context, peers: seq<Id>, now: nat)
    requires x.msg.dependencies != [] && x.msg.dependencies[0] == GET_SELF_AND_SUCC_LIST
    requires x.table.self.None? || x.table.self == Some(NO_ID)
    ensures var y := WithReport(x, Answered(peers), now);
            && y.sent == x.sent && y.msg.dependencies == [NOTIFICATION] + x.msg.dependencies && !y.flag
            && y.table == WithSuccessorList(x.table, peers) && GoesOn(x, y, now)
  {
  }

  /** A sub-request that failed ends it in failure, lowers the flag, and leaves the table alone. */
  lemma FailureReported(x: Context, r: Report, now: nat)
    requires x.msg.dependencies != [] && (!r.done || r.state != DONE)
    ensures var y := WithReport(x, r, now);
            && y.msg.done && y.msg.state == FAILED && !y.flag && y.table == x.table && y.sent == x.sent
            && y.msg.dependencies == x.msg.dependencies && y.msg.deadline == x.msg.deadline
  {
  }

  /** Running out of time costs the successor in the first phase only. */
  lemma TimeIsUp(x: Context)
    ensures var y := WithFailure(x);
            && y.msg.state == FAILED && !y.flag && y.sent == x.sent && y.msg.dependencies == x.msg.dependencies
            && (|x.msg.dependencies| != 1 ==> y.table == x.table)
            && (|x.msg.dependencies| == 1 && |x.table.succs| > 1 ==>
                  y.table.succs == x.table.succs[1..] && y.table.self == x.table.self && y.table.pred == x.table.pred)
  {
  }
}
