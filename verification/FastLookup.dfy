/** How near to its target a settled node forwards a lookup, and how often a lookup is forwarded then. */
module FastLookups {
  import opened Identifiers
  import opened RoutingTables
  import opened FindSuccessors
  import opened Rings
  import opened IdealRings
  import opened SuccessorLists
  import opened Lookups

  /* ---------- The hop a walking list gives ---------- */

  lemma {:induction false} WalkStep(s: State, n: Id, list: seq<Id>, k: nat, i: nat)
    requires Walks(s, n, list, k) && i + 1 < k <= |list|
    ensures list[i + 1] == Front(s, list[i])
    decreases i
  {
    if i > 0 { WalkStep(s, list[0], list[1..], k - 1, i - 1); }
  }

  lemma {:induction false} WalkEntryIsMember(ring: Ring, s: State, n: Id, list: seq<Id>, k: nat, i: nat)
    requires IsShaped(ring, s) && HaveNextSuccessors(ring, s) && IsMember(s, n)
    requires Walks(s, n, list, k) && i < k <= |list|
    ensures IsMember(s, list[i])
    decreases i
  {
    assert HasNextSuccessor(ring, s, n) && Front(s, n) in Members(s);
    if i > 0 { WalkEntryIsMember(ring, s, list[0], list[1..], k - 1, i - 1); }
  }

  /** Where the next member is not before `id`, no member is. */
  lemma NoMemberBefore(ring: Ring, s: State, at: Id, h: Id, id: Id, q: Id)
    requires IsShaped(ring, s) && IsMember(s, h) && HasNextSuccessor(ring, s, h) && IsMember(s, q)
    requires Between(at, h, id) && !Between(at, Front(s, h), id)
    ensures !Between(h, q, id)
  {
    var f := Front(s, h);
    assert f in ring && f in Members(s) && q in Members(s);
    if Between(h, q, id) {
      assert Lap(ring, h, f) <= Lap(ring, h, q);
      if f != q {
        BetweenFullCircle(h, id);
        BetweenComparesDistances(ring, h, f, q);
        if Dist(ring, h, f) == Dist(ring, h, q) { SamePlace(ring, h, f, q); }
        BetweenNests(h, f, q, id);
      }
      BetweenIsTransitive(at, h, f, id);
    }
  }

  /**
   * On a list that walks the ring the hop is the listed member nearest before `id`, except when the list goes more
   * than once round the ring and its very last entry lies before `id` again, but not as the nearest.
   */
  lemma HopIsClosestIff(ring: Ring, s: State, at: Id, id: Id)
    requires IsShaped(ring, s) && HaveNextSuccessors(ring, s) && IsMember(s, at)
    requires Find(s.nodes[at].table, id).None?
    requires var list := s.nodes[at].table.succs; Walks(s, at, list, |list|)
    ensures Front(s, at) in ring
    ensures var list, hop := s.nodes[at].table.succs, Hop(s, at, id);
            var last := list[|list| - 1];
            (forall q | q in list :: !Between(hop, q, id))
            <==> !(Between(at, last, id) && exists q :: q in list && Between(last, q, id))
  {
    assert Front(s, at) in ring;
    var t, hop := s.nodes[at].table, Hop(s, at, id);
    RoutingMakesProgress(t, id);
    var i :| 0 <= i < |t.succs| && t.succs[i] == hop && IsLastBetweenAt(at, t.succs, id, i);
    if i + 1 < |t.succs| {
      WalkStep(s, at, t.succs, |t.succs|, i);
      WalkEntryIsMember(ring, s, at, t.succs, |t.succs|, i);
      forall q | q in t.succs ensures !Between(hop, q, id) {
        var j :| 0 <= j < |t.succs| && t.succs[j] == q;
        WalkEntryIsMember(ring, s, at, t.succs, |t.succs|, j);
        assert HasNextSuccessor(ring, s, hop);
        NoMemberBefore(ring, s, at, hop, id, q);
      }
    }
  }

  /** In a ring of three, `b` forwards a lookup behind `f` to `d`, which its list names last, and not to `f`. */
  lemma ClosestMayBeMissed()
    ensures var t := Table(Some("b"), Some("f"), ["d", "f", "b", "d", "f", "b", "d", "f", "b", "d"]);
            && Find(t, "h").None? && ClosestPreceding(t, "h") == Some("d")
            && "f" in t.succs && Between("d", "f", "h")
  {
    var t := Table(Some("b"), Some("f"), ["d", "f", "b", "d", "f", "b", "d", "f", "b", "d"]);
    assert Less("b", "d") && Less("b", "h") && Less("d", "f") && Less("f", "h") && Less("d", "h");
    LessIsAsymmetric("d", "h");
    assert t.succs[9] == "d" && t.succs[1] == "f";
    RoutingMakesProgress(t, "h");
  }

  /* ---------- How often a lookup is forwarded in a large settled ring ---------- */

  /** All lists are clean, full and right, and too short to go round the ring. */
  ghost predicate IsLargeAndSettled(ring: Ring, s: State) {
    && IsRoutable(ring, s) && HaveNextSuccessors(ring, s) && AllWalk(s, SUCC_LIST_SIZE)
    && |Members(s)| > SUCC_LIST_SIZE
  }

  lemma NothingBeforeNext(ring: Ring, s: State, at: Id, y: Id)
    requires IsShaped(ring, s) && IsMember(s, at) && HasNextSuccessor(ring, s, at) && IsMember(s, y)
    ensures Front(s, at) in ring && !Between(at, y, Front(s, at))
  {
    assert y in Members(s) && Lap(ring, at, Front(s, at)) <= Lap(ring, at, y);
    BetweenComparesDistances(ring, at, y, Front(s, at));
  }

  /** A member answers itself exactly when no member lies before `id`. */
  lemma AnswersIffNobodyAhead(ring: Ring, s: State, at: Id, id: Id)
    requires IsRoutable(ring, s) && IsMember(s, at) && HasNextSuccessor(ring, s, at)
    ensures Front(s, at) in ring && (Find(s.nodes[at].table, id).Some? <==> Ahead(s, at, id) == {})
  {
    var f := Front(s, at);
    assert f in ring;
    RoutingMakesProgress(s.nodes[at].table, id);
    if Find(s.nodes[at].table, id).Some? {
      forall y | y in Members(s) ensures !Between(at, y, id) {
        NothingBeforeNext(ring, s, at, y);
        if Between(at, y, id) && id != f { BetweenNests(at, y, id, f); }
      }
    } else {
      HopsAdvance(ring, s, at, id);
    }
  }

  /** A member between `at` and `id` splits the members there. */
  lemma AheadSplits(s: State, at: Id, h: Id, id: Id)
    requires h in Members(s) && Between(at, h, id)
    ensures |Ahead(s, at, id)| == |Ahead(s, at, h)| + 1 + |Ahead(s, h, id)|
  {
    var near, far := Ahead(s, at, h), Ahead(s, h, id);
    forall y ensures Between(at, y, id) <==> Between(at, y, h) || y == h || Between(h, y, id) {
      ArcSplits(at, y, h, id);
    }
    forall y ensures !(Between(at, y, h) && Between(h, y, id)) && !Between(at, h, h) && !Between(h, h, id) {
      ArcSplits(at, y, h, id);
      BetweenFullCircle(at, h);
      BetweenFullCircle(h, id);
    }
    assert Ahead(s, at, id) == near + {h} + far && near !! {h} && near + {h} !! far;
  }

  lemma ArcSplits(at: Id, y: Id, h: Id, id: Id)
    requires Between(at, h, id)
    ensures Between(at, y, id) <==> Between(at, y, h) || y == h || Between(h, y, id)
    ensures !(Between(at, y, h) && Between(h, y, id))
  {
    BetweenFullCircle(at, h);
    BetweenFullCircle(at, id);
    BetweenFullCircle(h, id);
    BetweenFullCircle(at, y);
    if Between(at, y, id) && y != h && y != at { BetweenIsTotal(at, y, h); }
    if Between(at, h, y) && Between(at, y, id) { BetweenNests(at, h, y, id); }
    if Between(at, y, h) { BetweenNests(at, y, h, id); }
    if Between(h, y, id) { BetweenIsTransitive(at, h, y, id); }
    if Between(at, y, h) && Between(h, y, id) {
      BetweenRotates(y, h, id);
      BetweenIsTotal(h, y, id);
    }
  }

  /** A next member that is `at`, or comes before `e` again, has nobody beyond `e`. */
  lemma RingEndsHere(ring: Ring, s: State, at: Id, e: Id)
    requires IsShaped(ring, s) && IsMember(s, at) && IsMember(s, e) && HasNextSuccessor(ring, s, e) && e != at
    requires Front(s, e) == at || !Between(at, e, Front(s, e))
    ensures |Members(s)| <= |Ahead(s, at, e)| + 2
  {
    var f := Front(s, e);
    assert f in ring && at in Members(s) && e in Members(s);
    forall y | y in Members(s) ensures y in Ahead(s, at, e) + {at, e} {
      assert Lap(ring, e, f) <= Lap(ring, e, y) && Lap(ring, e, f) <= Lap(ring, e, at);
      if y != at && y != e { NobodyBeyond(ring, at, e, f, y); }
    }
    var all := Ahead(s, at, e) + {at, e};
    assert all == Members(s) + (all - Members(s));
    assert |{at, e}| == 2 && |all| <= |Ahead(s, at, e)| + |{at, e}|;
  }

  lemma SelfIsAlone(ring: Ring, s: State, at: Id)
    requires IsShaped(ring, s) && IsMember(s, at) && HasNextSuccessor(ring, s, at) && Front(s, at) == at
    ensures |Members(s)| == 1
  {
    forall y | y in Members(s) ensures y == at {
      NothingBeforeNext(ring, s, at, y);
      BetweenFullCircle(at, y);
    }
    assert at in Members(s) && Members(s) == {at};
  }

  /** While there are members beyond `e`, the next one is one further. */
  lemma OneFurther(ring: Ring, s: State, at: Id, e: Id)
    requires IsShaped(ring, s) && IsMember(s, at) && IsMember(s, e) && HasNextSuccessor(ring, s, e)
    requires e != at && |Ahead(s, at, e)| + 2 < |Members(s)|
    ensures var f := Front(s, e);
            f in ring && f != at && Between(at, e, f) && |Ahead(s, at, f)| == |Ahead(s, at, e)| + 1
  {
    var f := Front(s, e);
    assert f in ring && e in Members(s);
    if f == at || !Between(at, e, f) { RingEndsHere(ring, s, at, e); }
    AheadSplits(s, at, e, f);
    forall y | y in Members(s) ensures !Between(e, y, f) { NothingBeforeNext(ring, s, e, y); }
    assert Ahead(s, e, f) == {};
  }

  lemma NobodyBeyond(ring: Ring, at: Id, e: Id, f: Id, y: Id)
    requires IsRing(ring) && at in ring && e in ring && f in ring && y in ring && e != at && y != at && y != e
    requires Lap(ring, e, f) <= Lap(ring, e, y) && Lap(ring, e, f) <= Lap(ring, e, at)
    requires f == at || !Between(at, e, f)
    ensures Between(at, y, e)
  {
    BetweenComparesDistances(ring, at, y, e);
    BetweenComparesDistances(ring, at, e, f);
  }

  /** In a large settled ring the entry at index `i` of a list has `i` members before it. */
  lemma {:induction false} EntriesAreCounted(ring: Ring, s: State, at: Id, i: nat)
    requires IsLargeAndSettled(ring, s) && IsMember(s, at) && i < SUCC_LIST_SIZE
    ensures var list := s.nodes[at].table.succs;
            && |list| == SUCC_LIST_SIZE && IsMember(s, list[i]) && list[i] != at
            && |Ahead(s, at, list[i])| == i
    decreases i
  {
    var list := s.nodes[at].table.succs;
    assert Front(s, at) in ring && Walks(s, at, list, SUCC_LIST_SIZE);
    WalkLength(s, at, list, SUCC_LIST_SIZE);
    WalkEntryIsMember(ring, s, at, list, SUCC_LIST_SIZE, i);
    if i == 0 {
      assert HasNextSuccessor(ring, s, at);
      forall y | y in Members(s) ensures !Between(at, y, list[0]) { NothingBeforeNext(ring, s, at, y); }
      assert Ahead(s, at, list[0]) == {};
      if list[0] == at { SelfIsAlone(ring, s, at); }
    } else {
      EntriesAreCounted(ring, s, at, i - 1);
      WalkStep(s, at, list, SUCC_LIST_SIZE, i - 1);
      assert HasNextSuccessor(ring, s, list[i - 1]);
      OneFurther(ring, s, at, list[i - 1]);
    }
  }

  /** The hop is the tenth member ahead, or the last one before `id` if there are not ten. */
  lemma HopSkipsNine(ring: Ring, s: State, at: Id, id: Id)
    requires IsLargeAndSettled(ring, s) && IsMember(s, at) && Front(s, at) in ring
    requires Find(s.nodes[at].table, id).None?
    ensures IsMember(s, Hop(s, at, id))
    ensures var ahead := |Ahead(s, at, id)|;
            |Ahead(s, Hop(s, at, id), id)| == if ahead > SUCC_LIST_SIZE then ahead - SUCC_LIST_SIZE else 0
  {
    var list, hop := s.nodes[at].table.succs, Hop(s, at, id);
    RoutingMakesProgress(s.nodes[at].table, id);
    var i :| 0 <= i < |list| && list[i] == hop && IsLastBetweenAt(at, list, id, i);
    EntriesAreCounted(ring, s, at, i);
    AheadSplits(s, at, hop, id);
    if i + 1 < |list| {
      assert Walks(s, at, list, SUCC_LIST_SIZE);
      WalkStep(s, at, list, SUCC_LIST_SIZE, i);
      assert HasNextSuccessor(ring, s, hop);
      forall q | q in Members(s) ensures !Between(hop, q, id) { NoMemberBefore(ring, s, at, hop, id, q); }
      assert Ahead(s, hop, id) == {};
    }
  }

  /** With more than ten members settled, a lookup is forwarded once for every ten members ahead, rounded up. */
  lemma {:induction false} LookupTakesTenths(ring: Ring, s: State, at: Id, id: Id)
    requires IsLargeAndSettled(ring, s) && IsMember(s, at)
    ensures Forwards(ring, s, at, id) == (|Ahead(s, at, id)| + SUCC_LIST_SIZE - 1) / SUCC_LIST_SIZE
    decreases |Ahead(s, at, id)|
  {
    assert Front(s, at) in ring && HasNextSuccessor(ring, s, at);
    AnswersIffNobodyAhead(ring, s, at, id);
    if Find(s.nodes[at].table, id).None? {
      HopsAdvance(ring, s, at, id);
      HopSkipsNine(ring, s, at, id);
      LookupTakesTenths(ring, s, Hop(s, at, id), id);
    }
  }

  /** Nine rounds after the ring became ideal with more than ten members, lookups are that fast. */
  lemma SettledRingIsFast(ring: Ring, c: Id, s: State, rounds: seq<seq<Step>>)
    requires Inv(ring, c, s) && IsIdealRing(ring, s) && AreRounds(s, rounds) && |rounds| >= SUCC_LIST_SIZE - 1
    requires |Members(s)| > SUCC_LIST_SIZE
    ensures IsLargeAndSettled(ring, RunRounds(s, rounds))
  {
    RoundsKeepIdeal(ring, c, s, rounds);
    PaddingDrainsAway(ring, c, s, rounds);
    SettledLookupsAreRight(ring, c, s, rounds);
    IdealSuccessorsAreNext(ring, RunRounds(s, rounds));
  }
}
