/** Following first successors round the ring without ever jumping over the destination. */
module Paths {
  import opened Identifiers

  /** The first successor of every node. */
  type Edges = map<Id, Id>

  function Next(succ: Edges, n: Id): Id {
    if n in succ then succ[n] else NO_ID
  }

  ghost predicate IsEdges(ring: Ring, succ: Edges) {
    forall n {:trigger Next(succ, n)} | n in ring :: n in succ && Next(succ, n) in ring
  }

  /** Following successors from `a` arrives at `b`; every hop lands nearer to `b`, so none passes over it. */
  ghost predicate Reaches(ring: Ring, succ: Edges, a: Id, b: Id)
    requires IsEdges(ring, succ) && a in ring && b in ring
    decreases Dist(ring, a, b)
  {
    a == b || (Dist(ring, Next(succ, a), b) < Dist(ring, a, b) && Reaches(ring, succ, Next(succ, a), b))
  }

  lemma {:induction false} ReachesTransitive(ring: Ring, succ: Edges, a: Id, b: Id, c: Id)
    requires IsEdges(ring, succ) && a in ring && b in ring && c in ring
    requires Reaches(ring, succ, a, b) && Reaches(ring, succ, b, c)
    requires Dist(ring, a, b) <= Dist(ring, a, c)
    ensures Reaches(ring, succ, a, c)
    decreases Dist(ring, a, b)
  {
    if a != b {
      ReachesTransitive(ring, succ, Next(succ, a), b, c);
    }
  }

  lemma OneEdgeChanges(ring: Ring, succ: Edges, i: Id, x: Id)
    requires IsEdges(ring, succ) && i in ring && x in ring
    ensures IsEdges(ring, succ[i := x])
    ensures forall m {:trigger Next(succ[i := x], m)} :: Next(succ[i := x], m) == if m == i then x else Next(succ, m)
  {
    forall m | m in ring ensures m in succ[i := x] && Next(succ[i := x], m) in ring {
      assert Next(succ, m) in ring;
    }
  }

  /** Moving `i`'s edge back to `x`, inside its arc and itself leading to the old successor, loses no path. */
  lemma {:induction false} ShorteningKeepsPaths(ring: Ring, succ: Edges, i: Id, x: Id, a: Id, b: Id)
    requires IsEdges(ring, succ) && i in ring && x in ring && a in ring && b in ring
    requires x != i && Dist(ring, i, x) < Lap(ring, i, Next(succ, i)) && Reaches(ring, succ, x, Next(succ, i))
    requires Reaches(ring, succ, a, b)
    ensures IsEdges(ring, succ[i := x]) && Reaches(ring, succ[i := x], a, b)
    decreases Dist(ring, a, b)
  {
    OneEdgeChanges(ring, succ, i, x);
    if a == b {
    } else if a == i {
      ReachesTransitive(ring, succ, x, Next(succ, i), b);
      ShorteningKeepsPaths(ring, succ, i, x, x, b);
    } else {
      ShorteningKeepsPaths(ring, succ, i, x, Next(succ, a), b);
    }
  }

  /** A node that is its own successor lies on no path but as an end: giving it any edge loses no path. */
  lemma {:induction false} LinkingKeepsPaths(ring: Ring, succ: Edges, i: Id, f: Id, a: Id, b: Id)
    requires IsEdges(ring, succ) && i in ring && f in ring && a in ring && b in ring
    requires Next(succ, i) == i && Reaches(ring, succ, a, b)
    ensures IsEdges(ring, succ[i := f]) && Reaches(ring, succ[i := f], a, b)
    decreases Dist(ring, a, b)
  {
    OneEdgeChanges(ring, succ, i, f);
    if a != b {
      LinkingKeepsPaths(ring, succ, i, f, Next(succ, a), b);
    }
  }

  /* ---------- The ideal ring ---------- */

  /** `s` is the first member met going clockwise from `i`; `i` itself is met last. */
  ghost predicate IsNextMember(ring: Ring, members: set<Id>, i: Id, s: Id)
    requires i in ring && forall y | y in members :: y in ring
  {
    s in members && forall y {:trigger Lap(ring, i, y)} | y in members :: Lap(ring, i, s) <= Lap(ring, i, y)
  }

  ghost predicate IsMembership(ring: Ring, succ: Edges, members: set<Id>) {
    && IsEdges(ring, succ)
    && (forall i | i in members :: i in ring)
    && (forall i {:trigger Next(succ, i)} | i in members :: Next(succ, i) in members)
  }

  /** Every member points at the next one. */
  ghost predicate IsIdeal(ring: Ring, succ: Edges, members: set<Id>) {
    IsMembership(ring, succ, members) &&
    forall i {:trigger Next(succ, i)} | i in members :: IsNextMember(ring, members, i, Next(succ, i))
  }

  /** An ideal ring is one cycle: every member is met on the way round from any other, without overshooting. */
  lemma {:induction false} IdealIsOneCycle(ring: Ring, succ: Edges, members: set<Id>, a: Id, b: Id)
    requires IsIdeal(ring, succ, members) && a in members && b in members
    ensures Reaches(ring, succ, a, b)
    decreases Dist(ring, a, b)
  {
    if a != b {
      assert Lap(ring, a, Next(succ, a)) <= Lap(ring, a, b);
      IdealIsOneCycle(ring, succ, members, Next(succ, a), b);
    }
  }

  /** Seen from `o`, a next node `t` of `e` comes before any other `y` beyond `e`. */
  lemma NextComesFirst(ring: Ring, o: Id, e: Id, t: Id, y: Id)
    requires o in ring && e in ring && t in ring && y in ring && Lap(ring, e, t) <= Lap(ring, e, y)
    ensures Dist(ring, o, e) < Dist(ring, o, t) && Dist(ring, o, e) < Dist(ring, o, y) ==>
              Dist(ring, o, t) <= Dist(ring, o, y)
    ensures Dist(ring, o, t) <= Dist(ring, o, e) ==> Dist(ring, o, y) <= Dist(ring, o, e)
    ensures Dist(ring, o, t) <= Dist(ring, o, e) && y == o ==> t == o
  {
  }

  /** Every member has its own successor, and all of them arrive at `c`. */
  ghost predicate IsTidy(ring: Ring, succ: Edges, members: set<Id>, c: Id) {
    && IsMembership(ring, succ, members) && c in members
    && (forall i, j {:trigger Next(succ, i), Next(succ, j)} | i in members && j in members ::
          Next(succ, i) == Next(succ, j) ==> i == j)
    && (forall i {:trigger Reaches(ring, succ, i, c)} | i in members :: Reaches(ring, succ, i, c))
  }

  ghost function Hops(ring: Ring, succ: Edges, a: Id, c: Id): nat
    requires IsEdges(ring, succ) && a in ring && c in ring && Reaches(ring, succ, a, c)
    decreases Dist(ring, a, c)
  {
    if a == c then 0 else 1 + Hops(ring, succ, Next(succ, a), c)
  }

  lemma {:induction false} SameHopsSameNode(ring: Ring, succ: Edges, members: set<Id>, c: Id, a: Id, b: Id)
    requires IsTidy(ring, succ, members, c) && a in members && b in members
    requires Hops(ring, succ, a, c) == Hops(ring, succ, b, c)
    ensures a == b
    decreases Dist(ring, a, c)
  {
    assert Reaches(ring, succ, a, c) && Reaches(ring, succ, b, c);
    if a != c && b != c {
      SameHopsSameNode(ring, succ, members, c, Next(succ, a), Next(succ, b));
    }
  }

  /** In a tidy ring the member further from `c` passes through the nearer one. */
  lemma {:induction false} FartherPassesNearer(ring: Ring, succ: Edges, members: set<Id>, c: Id, a: Id, b: Id)
    requires IsTidy(ring, succ, members, c) && a in members && b in members
    requires Hops(ring, succ, b, c) <= Hops(ring, succ, a, c)
    ensures Dist(ring, b, c) <= Dist(ring, a, c) && Reaches(ring, succ, a, b)
    decreases Dist(ring, a, c)
  {
    assert Reaches(ring, succ, a, c) && Reaches(ring, succ, b, c);
    if Hops(ring, succ, b, c) == Hops(ring, succ, a, c) {
      SameHopsSameNode(ring, succ, members, c, a, b);
    } else {
      FartherPassesNearer(ring, succ, members, c, Next(succ, a), b);
    }
  }

  /** Distinct successors and nobody jumping over `c` leave only one possibility: the ideal ring. */
  lemma TidyIsIdeal(ring: Ring, succ: Edges, members: set<Id>, c: Id)
    requires IsTidy(ring, succ, members, c)
    ensures IsIdeal(ring, succ, members)
  {
    forall i, y | i in members && y in members ensures Lap(ring, i, Next(succ, i)) <= Lap(ring, i, y) {
      NoMemberIsSkipped(ring, succ, members, c, i, y);
    }
    forall i | i in members ensures IsNextMember(ring, members, i, Next(succ, i)) {}
  }

  lemma NearerToStartOrBeyond(ring: Ring, i: Id, s: Id, y: Id)
    requires i in ring && s in ring && y in ring && i != s
    requires Dist(ring, i, s) <= Dist(ring, y, s)
    ensures Lap(ring, i, s) <= Lap(ring, i, y)
  {
  }

  lemma NearerToEndOrBeyond(ring: Ring, i: Id, s: Id, y: Id, c: Id)
    requires i in ring && s in ring && y in ring && c in ring
    requires Dist(ring, y, c) <= Dist(ring, s, c)
    requires i == c || Dist(ring, s, c) < Dist(ring, i, c)
    ensures Lap(ring, i, s) <= Lap(ring, i, y)
  {
  }

  lemma NoMemberIsSkipped(ring: Ring, succ: Edges, members: set<Id>, c: Id, i: Id, y: Id)
    requires IsTidy(ring, succ, members, c) && i in members && y in members
    ensures Lap(ring, i, Next(succ, i)) <= Lap(ring, i, y)
  {
    var s := Next(succ, i);
    assert Reaches(ring, succ, s, c) && Reaches(ring, succ, y, c) && Reaches(ring, succ, i, c);
    if y == s {
    } else if Hops(ring, succ, s, c) <= Hops(ring, succ, y, c) {
      FartherPassesNearer(ring, succ, members, c, y, s);
      OnlyOneWayIn(ring, succ, members, c, y, i);
      NearerToStartOrBeyond(ring, i, s, y);
    } else {
      FartherPassesNearer(ring, succ, members, c, s, y);
      NearerToEndOrBeyond(ring, i, s, y, c);
    }
  }

  /** A path from `y` to `i`'s successor must come through `i`. */
  lemma {:induction false} OnlyOneWayIn(ring: Ring, succ: Edges, members: set<Id>, c: Id, y: Id, i: Id)
    requires IsTidy(ring, succ, members, c) && i in members && y in members
    requires y != Next(succ, i) && Reaches(ring, succ, y, Next(succ, i))
    ensures Dist(ring, i, Next(succ, i)) <= Dist(ring, y, Next(succ, i)) && i != Next(succ, i)
    decreases Dist(ring, y, Next(succ, i))
  {
    if Next(succ, y) == Next(succ, i) {
      assert y == i;
    } else {
      OnlyOneWayIn(ring, succ, members, c, Next(succ, y), i);
    }
  }
}
