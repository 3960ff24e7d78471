/** Lookups forwarded from node to node: they end, soon, and on an ideal ring with the right answer. */
module Lookups {
  import opened Identifiers
  import opened RoutingTables
  import opened FindSuccessors
  import opened Rings
  import opened RingInvariants
  import opened IdealRings
  import opened SuccessorLists

  predicate ListIsClean(s: State, n: Id)
    requires n in s.nodes
  {
    forall p | p in s.nodes[n].table.succs :: IsMember(s, p)
  }

  /** Every list entry of every member is a member: no padding, no strangers. */
  ghost predicate IsRoutable(ring: Ring, s: State) {
    IsShaped(ring, s) && forall n {:trigger ListIsClean(s, n)} | IsMember(s, n) :: ListIsClean(s, n)
  }

  /** The members strictly between `at` and `id`. */
  ghost function Ahead(s: State, at: Id, id: Id): set<Id> {
    set y | y in Members(s) && Between(at, y, id)
  }

  /** The node `at` forwards a lookup for `id` to. */
  function Hop(s: State, at: Id, id: Id): Id
    requires at in s.nodes && s.nodes[at].table.self.Some?
  {
    ClosestPreceding(s.nodes[at].table, id).value
  }

  /** A forwarded lookup reaches another member with fewer members left ahead. */
  lemma HopsAdvance(ring: Ring, s: State, at: Id, id: Id)
    requires IsRoutable(ring, s) && IsMember(s, at) && Front(s, at) in ring && Find(s.nodes[at].table, id).None?
    ensures var hop := Hop(s, at, id);
            IsMember(s, hop) && Between(at, hop, id) && Ahead(s, hop, id) < Ahead(s, at, id)
    ensures |Ahead(s, Hop(s, at, id), id)| < |Ahead(s, at, id)|
  {
    var hop := Hop(s, at, id);
    assert ListIsClean(s, at);
    RoutingMakesProgress(s.nodes[at].table, id);
    forall y | y in Ahead(s, hop, id) ensures y in Ahead(s, at, id) {
      BetweenIsTransitive(at, hop, y, id);
    }
    BetweenFullCircle(hop, id);
    assert hop in Ahead(s, at, id) && hop !in Ahead(s, hop, id);
    assert Ahead(s, at, id) == Ahead(s, hop, id) + (Ahead(s, at, id) - Ahead(s, hop, id));
  }

  /** The answer to a lookup for `id` put to member `at`; relaying nodes pass the answer back unchanged. */
  ghost function Route(ring: Ring, s: State, at: Id, id: Id): Id
    requires IsRoutable(ring, s) && IsMember(s, at)
    decreases |Ahead(s, at, id)|
  {
    assert Front(s, at) in ring;
    if Find(s.nodes[at].table, id).Some? then Find(s.nodes[at].table, id).value
    else
      HopsAdvance(ring, s, at, id);
      Route(ring, s, Hop(s, at, id), id)
  }

  /** How often the lookup is forwarded. */
  ghost function Forwards(ring: Ring, s: State, at: Id, id: Id): nat
    requires IsRoutable(ring, s) && IsMember(s, at)
    decreases |Ahead(s, at, id)|
  {
    assert Front(s, at) in ring;
    if Find(s.nodes[at].table, id).Some? then 0
    else
      HopsAdvance(ring, s, at, id);
      1 + Forwards(ring, s, Hop(s, at, id), id)
  }

  /** A lookup is forwarded at most once for each member between its start and `id`. */
  lemma {:induction false} LookupIsBounded(ring: Ring, s: State, at: Id, id: Id)
    requires IsRoutable(ring, s) && IsMember(s, at)
    ensures Forwards(ring, s, at, id) <= |Ahead(s, at, id)|
    decreases |Ahead(s, at, id)|
  {
    assert Front(s, at) in ring;
    if Find(s.nodes[at].table, id).None? {
      HopsAdvance(ring, s, at, id);
      LookupIsBounded(ring, s, Hop(s, at, id), id);
    }
  }

  /** `r` is the first member met going clockwise from `id`, `id` itself included. */
  ghost predicate IsSuccessorOf(s: State, id: Id, r: Id) {
    r in Members(s) && forall y | y in Members(s) && y != r :: y != id && (r == id || Between(id, r, y))
  }

  lemma LocalAnswerIsRight(ring: Ring, s: State, at: Id, id: Id)
    requires IsShaped(ring, s) && IsMember(s, at) && HasNextSuccessor(ring, s, at)
    requires Find(s.nodes[at].table, id).Some?
    ensures IsSuccessorOf(s, id, Find(s.nodes[at].table, id).value)
  {
    var r := Front(s, at);
    assert r in ring;
    RoutingMakesProgress(s.nodes[at].table, id);
    forall y | y in Members(s) && y != r ensures y != id && (r == id || Between(id, r, y)) {
      assert Lap(ring, at, r) <= Lap(ring, at, y);
      SuccessorIsNearest(ring, at, id, r, y);
    }
  }

  lemma SuccessorIsNearest(ring: Ring, at: Id, id: Id, r: Id, y: Id)
    requires IsRing(ring) && at in ring && r in ring && y in ring && y != r
    requires Lap(ring, at, r) <= Lap(ring, at, y)
    requires Between(at, id, r) || id == r
    ensures y != id && (r == id || Between(id, r, y))
  {
    BetweenComparesDistances(ring, at, r, y);
    BetweenComparesDistances(ring, at, y, r);
    if r != id {
      if y == at {
        BetweenRotates(at, id, r);
        BetweenFullCircle(at, r);
      } else if r == at {
        assert false;
      } else {
        assert Between(at, r, y);
        BetweenRotates(at, id, r);
        BetweenRotates(at, r, y);
        BetweenRotates(id, r, at);
        BetweenNests(r, y, at, id);
        BetweenRotates(r, y, id);
        BetweenRotates(y, id, r);
      }
    }
  }

  /** Every member's successor is the next member; notifications may still be under way. */
  ghost predicate HaveNextSuccessors(ring: Ring, s: State)
    requires IsShaped(ring, s)
  {
    forall n {:trigger HasNextSuccessor(ring, s, n)} | IsMember(s, n) :: HasNextSuccessor(ring, s, n)
  }

  /**
   * With all successors right the answer, from wherever and through however many nodes, is the first member at or
   * after `id`.
   */
  lemma {:induction false} LookupIsRight(ring: Ring, s: State, at: Id, id: Id)
    requires IsRoutable(ring, s) && HaveNextSuccessors(ring, s) && IsMember(s, at)
    ensures IsSuccessorOf(s, id, Route(ring, s, at, id))
    decreases |Ahead(s, at, id)|
  {
    assert Front(s, at) in ring && HasNextSuccessor(ring, s, at);
    if Find(s.nodes[at].table, id).Some? {
      LocalAnswerIsRight(ring, s, at, id);
    } else {
      HopsAdvance(ring, s, at, id);
      LookupIsRight(ring, s, Hop(s, at, id), id);
    }
  }

  lemma IdealSuccessorsAreNext(ring: Ring, s: State)
    requires IsShaped(ring, s) && IsIdealRing(ring, s)
    ensures HaveNextSuccessors(ring, s)
  {
    forall n | IsMember(s, n) ensures HasNextSuccessor(ring, s, n) {
      assert IsInPlace(ring, s, n);
    }
  }

  /** Every member answers every lookup with the first member at or after it. */
  ghost predicate AnswersRightly(ring: Ring, s: State) {
    IsRoutable(ring, s) &&
    forall at, id {:trigger Route(ring, s, at, id)} | IsMember(s, at) :: IsSuccessorOf(s, id, Route(ring, s, at, id))
  }

  lemma {:induction false} WalkMeetsMembers(ring: Ring, c: Id, s: State, n: Id, list: seq<Id>, k: nat)
    requires Inv(ring, c, s) && IsMember(s, n) && Walks(s, n, list, k) && |list| == k
    ensures forall p | p in list :: IsMember(s, p)
    decreases k
  {
    if k > 0 {
      assert NodeOk(ring, s, c, n);
      WalkMeetsMembers(ring, c, s, list[0], list[1..], k - 1);
      assert forall p | p in list :: p == list[0] || p in list[1..];
    }
  }

  /** Nine rounds after the ring became ideal, every lookup ends with the right answer. */
  lemma SettledLookupsAreRight(ring: Ring, c: Id, s: State, rounds: seq<seq<Step>>)
    requires Inv(ring, c, s) && IsIdealRing(ring, s) && AreRounds(s, rounds) && |rounds| >= SUCC_LIST_SIZE - 1
    ensures AnswersRightly(ring, RunRounds(s, rounds))
  {
    var s' := RunRounds(s, rounds);
    PaddingDrainsAway(ring, c, s, rounds);
    RoundsKeepIdeal(ring, c, s, rounds);
    forall n | IsMember(s', n) ensures ListIsClean(s', n) {
      var list := s'.nodes[n].table.succs;
      assert Front(s', n) in ring;
      assert Walks(s', n, list, SUCC_LIST_SIZE);
      WalkLength(s', n, list, SUCC_LIST_SIZE);
      WalkMeetsMembers(ring, c, s', n, list, SUCC_LIST_SIZE);
    }
    IdealSuccessorsAreNext(ring, s');
    forall at, id | IsMember(s', at) ensures IsSuccessorOf(s', id, Route(ring, s', at, id)) {
      LookupIsRight(ring, s', at, id);
    }
  }

  lemma {:induction false} RoundsKeepIdeal(ring: Ring, c: Id, s: State, rounds: seq<seq<Step>>)
    requires Inv(ring, c, s) && IsIdealRing(ring, s) && AreRounds(s, rounds)
    ensures Inv(ring, c, RunRounds(s, rounds)) && IsIdealRing(ring, RunRounds(s, rounds))
    ensures Members(RunRounds(s, rounds)) == Members(s)
    decreases |rounds|
  {
    if rounds != [] {
      AnyStateIsFilledToOne(ring, c, s);
      RoundLifts(ring, c, s, rounds[0], 1);
      RoundsKeepIdeal(ring, c, Run(s, rounds[0]), rounds[1..]);
    }
  }
}
