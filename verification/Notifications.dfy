/** Any sequence of notifications ends with the same predecessor: the notifier nearest before the node. */
module Notifications {
  import opened Identifiers
  import opened RoutingTables
  import opened Maintenance

  function AfterNotices(t: Table, notifiers: seq<Id>): Table
    decreases |notifiers|
  {
    if notifiers == [] then t else AfterNotices(Notified(t, notifiers[0]), notifiers[1..])
  }

  /** `p` is the candidate met last before arriving at `self`; `self` itself counts as farthest. */
  ghost predicate IsNearestBefore(self: Id, candidates: set<Id>, p: Id) {
    p in candidates && forall x | x in candidates :: !Between(p, x, self)
  }

  function Candidates(pred: Option<Id>, notifiers: seq<Id>): set<Id> {
    (if pred.Some? then {pred.value} else {}) + (set x | x in notifiers)
  }

  lemma NearestIsUnique(self: Id, candidates: set<Id>, p: Id, q: Id)
    requires IsNearestBefore(self, candidates, p) && IsNearestBefore(self, candidates, q)
    ensures p == q
  {
    BetweenFullCircle(self, p);
    BetweenFullCircle(self, q);
    if p != q && p != self && q != self {
      BetweenIsTotal(p, q, self);
      BetweenRotates(p, self, q);
      BetweenRotates(self, q, p);
    }
  }

  /** One notification keeps the nearer of predecessor and notifier. */
  lemma NotifiedIsNearest(self: Id, candidates: set<Id>, p: Id, x: Id)
    requires IsNearestBefore(self, candidates, p)
    ensures IsNearestBefore(self, candidates + {x}, if Between(p, x, self) then x else p)
  {
    if Between(p, x, self) {
      forall y | y in candidates + {x} ensures !Between(x, y, self) {
        BetweenFullCircle(x, self);
        if y != x && Between(x, y, self) { BetweenIsTransitive(p, x, y, self); }
      }
    }
  }

  lemma {:induction false} NoticesFindNearest(t: Table, notifiers: seq<Id>, candidates: set<Id>)
    requires t.pred.Some? && IsNearestBefore(t.SelfId(), candidates, t.pred.value)
    ensures var t' := AfterNotices(t, notifiers);
            && t' == t.(pred := t'.pred) && t'.pred.Some?
            && IsNearestBefore(t.SelfId(), candidates + (set x | x in notifiers), t'.pred.value)
    decreases |notifiers|
  {
    if notifiers == [] {
      assert candidates + (set x | x in notifiers) == candidates;
    } else {
      var x := notifiers[0];
      NotifiedIsNearest(t.SelfId(), candidates, t.pred.value, x);
      NoticesFindNearest(Notified(t, x), notifiers[1..], candidates + {x});
      assert candidates + (set y | y in notifiers) == candidates + {x} + (set y | y in notifiers[1..]);
    }
  }

  /** After any non-empty sequence of notifications the predecessor is the nearest of all candidates. */
  lemma PredecessorIsNearest(t: Table, notifiers: seq<Id>)
    requires notifiers != [] || t.pred.Some?
    ensures var t' := AfterNotices(t, notifiers);
            && t' == t.(pred := t'.pred) && t'.pred.Some?
            && IsNearestBefore(t.SelfId(), Candidates(t.pred, notifiers), t'.pred.value)
  {
    if t.pred.Some? {
      BetweenFullCircle(t.pred.value, t.SelfId());
      NoticesFindNearest(t, notifiers, {t.pred.value});
    } else {
      var x := notifiers[0];
      BetweenFullCircle(x, t.SelfId());
      NoticesFindNearest(Notified(t, x), notifiers[1..], {x});
      assert Candidates(t.pred, notifiers) == {x} + (set y | y in notifiers[1..]);
    }
  }

  /** Order and repetition of notifications do not matter. */
  lemma NotificationsCommute(t: Table, first: seq<Id>, second: seq<Id>)
    requires first != [] && second != [] && (set x | x in first) == (set x | x in second)
    ensures AfterNotices(t, first) == AfterNotices(t, second)
  {
    PredecessorIsNearest(t, first);
    PredecessorIsNearest(t, second);
    NearestIsUnique(t.SelfId(), Candidates(t.pred, first),
                    AfterNotices(t, first).pred.value, AfterNotices(t, second).pred.value);
  }
}
