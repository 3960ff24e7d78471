/** The ring at rest: nothing left to stabilize means the ideal ring, and the ideal ring stays. */
module IdealRings {
  import opened Identifiers
  import opened RoutingTables
  import opened Maintenance
  import opened Paths
  import opened Rings
  import opened RingInvariants

  ghost function Members(s: State): set<Id> {
    set n | n in s.nodes && IsMember(s, n)
  }

  /** Stabilizing now, `n` would keep its successor, and notifying it would change nothing. */
  predicate IsContent(s: State, n: Id) {
    n in s.nodes && Front(s, n) in s.nodes &&
    var f := s.nodes[Front(s, n)].table;
    OnPredReply(s.nodes[n].table, PredAndList(f)).1 == NotifiesSuccessor && Notified(f, n) == f
  }

  ghost predicate IsQuiescent(s: State) {
    forall n {:trigger IsContent(s, n)} | IsMember(s, n) :: IsContent(s, n)
  }

  /** `n`'s successor is the next member clockwise and knows `n` as its predecessor. */
  ghost predicate IsInPlace(ring: Ring, s: State, n: Id)
    requires IsShaped(ring, s) && n in s.nodes
  {
    IsNextMember(ring, Members(s), n, Front(s, n)) && s.nodes[Front(s, n)].table.pred == Some(n)
  }

  /** `n`'s successor is the next member clockwise, whether or not it knows `n` yet. */
  ghost predicate HasNextSuccessor(ring: Ring, s: State, n: Id)
    requires IsShaped(ring, s) && n in s.nodes
  {
    IsNextMember(ring, Members(s), n, Front(s, n))
  }

  ghost predicate IsIdealRing(ring: Ring, s: State)
    requires IsShaped(ring, s)
  {
    forall n {:trigger IsInPlace(ring, s, n)} | IsMember(s, n) :: IsInPlace(ring, s, n)
  }

  /* ---------- Quiescence is the ideal ring ---------- */

  /** The only node a content node's successor can take for its predecessor is that node. */
  lemma ContentIsAcknowledged(ring: Ring, c: Id, s: State, n: Id)
    requires Inv(ring, c, s) && n in s.nodes && Front(s, n) in s.nodes
    ensures IsContent(s, n) <==> s.nodes[Front(s, n)].table.pred == Some(n)
  {
    var f := Front(s, n);
    assert NodeOk(ring, s, c, n) && NodeOk(ring, s, c, f) && Front(s, f) in ring;
    BetweenFullCircle(n, f);
    BetweenFullCircle(f, n);
    var pred := s.nodes[f].table.pred;
    if pred.Some? && pred.value != n && pred.value != f && n != f {
      BetweenIsTotal(n, pred.value, f);
      BetweenRotates(n, f, pred.value);
      BetweenRotates(pred.value, n, f);
    }
    if pred.Some? { BetweenFullCircle(n, pred.value); }
  }

  lemma SuccessorsOfMembers(ring: Ring, c: Id, s: State)
    requires Inv(ring, c, s)
    ensures IsMembership(ring, Successors(ring, s), Members(s))
  {
    var succ := Successors(ring, s);
    forall n | n in Members(s) ensures Next(succ, n) in Members(s) {
      assert NodeOk(ring, s, c, n) && Next(succ, n) == Front(s, n);
    }
  }

  lemma AcknowledgedIsTidy(ring: Ring, c: Id, s: State)
    requires Inv(ring, c, s)
    requires forall n {:trigger Front(s, n)} | IsMember(s, n) :: s.nodes[Front(s, n)].table.pred == Some(n)
    ensures IsTidy(ring, Successors(ring, s), Members(s), c)
  {
    var succ, members := Successors(ring, s), Members(s);
    SuccessorsOfMembers(ring, c, s);
    forall i, j | i in members && j in members && Next(succ, i) == Next(succ, j) ensures i == j {
      assert Next(succ, i) == Front(s, i) && Next(succ, j) == Front(s, j);
    }
    forall i | i in members ensures Reaches(ring, succ, i, c) {
      assert NodeOk(ring, s, c, i) && Path(ring, s, i, c);
    }
  }

  /** In a state of the machine, no work left to do and the ideal ring are the same thing. */
  lemma QuiescentIffIdeal(ring: Ring, c: Id, s: State)
    requires Inv(ring, c, s)
    ensures IsQuiescent(s) <==> IsIdealRing(ring, s)
  {
    forall n | IsMember(s, n)
      ensures Front(s, n) in s.nodes
      ensures IsContent(s, n) <==> s.nodes[Front(s, n)].table.pred == Some(n)
    {
      assert Front(s, n) in ring;
      ContentIsAcknowledged(ring, c, s, n);
    }
    if IsQuiescent(s) {
      forall n | IsMember(s, n) ensures s.nodes[Front(s, n)].table.pred == Some(n) {
        assert IsContent(s, n);
      }
      AcknowledgedIsTidy(ring, c, s);
      TidyIsIdeal(ring, Successors(ring, s), Members(s), c);
      forall n | IsMember(s, n) ensures IsInPlace(ring, s, n) {
        assert Next(Successors(ring, s), n) == Front(s, n);
      }
    }
    if IsIdealRing(ring, s) {
      forall n | IsMember(s, n) ensures IsContent(s, n) {
        assert IsInPlace(ring, s, n);
      }
    }
  }

  lemma IdealSuccessors(ring: Ring, c: Id, s: State)
    requires Inv(ring, c, s) && IsIdealRing(ring, s)
    ensures IsIdeal(ring, Successors(ring, s), Members(s))
  {
    SuccessorsOfMembers(ring, c, s);
    forall n | n in Members(s) ensures IsNextMember(ring, Members(s), n, Next(Successors(ring, s), n)) {
      assert IsInPlace(ring, s, n) && Next(Successors(ring, s), n) == Front(s, n);
    }
  }

  /** In every reachable state with no work left, the members form one cycle in clockwise order. */
  lemma RestingRingIsOneCycle(ring: Ring, c: Id, steps: seq<Step>, a: Id, b: Id)
    requires IsRing(ring) && NO_ID !in ring && c in ring && CanRun(Start(ring, c), steps)
    requires var s := Run(Start(ring, c), steps); IsQuiescent(s) && IsMember(s, a) && IsMember(s, b)
    ensures var s := Run(Start(ring, c), steps);
            IsShaped(ring, s) && a in ring && b in ring && IsInPlace(ring, s, a) && Path(ring, s, a, b)
  {
    StartIsOk(ring, c);
    RunKeepsPaths(ring, c, Start(ring, c), steps);
    var s := Run(Start(ring, c), steps);
    QuiescentIffIdeal(ring, c, s);
    IdealSuccessors(ring, c, s);
    IdealIsOneCycle(ring, Successors(ring, s), Members(s), a, b);
  }

  /* ---------- The ideal ring is stable ---------- */

  /** Walking an ideal ring from `a` to `b`, the last node before `b`. */
  lemma {:induction false} LastBefore(ring: Ring, c: Id, s: State, a: Id, b: Id) returns (p: Id)
    requires Inv(ring, c, s) && IsMember(s, a) && b in ring && a != b && Path(ring, s, a, b)
    ensures IsMember(s, p) && Front(s, p) == b
    decreases Dist(ring, a, b)
  {
    assert NodeOk(ring, s, c, a) && Next(Successors(ring, s), a) == Front(s, a) && Front(s, a) in ring;
    if Front(s, a) == b {
      p := a;
    } else {
      p := LastBefore(ring, c, s, Front(s, a), b);
    }
  }

  /** Each member of an ideal ring knows the member before it. */
  lemma MemberBefore(ring: Ring, c: Id, s: State, n: Id) returns (p: Id)
    requires Inv(ring, c, s) && IsIdealRing(ring, s) && IsMember(s, n)
    ensures IsMember(s, p) && Front(s, p) == n && s.nodes[n].table.pred == Some(p)
    ensures IsNextMember(ring, Members(s), p, n)
  {
    assert NodeOk(ring, s, c, n) && Front(s, n) in ring;
    if Front(s, n) == n {
      p := n;
    } else {
      IdealSuccessors(ring, c, s);
      IdealIsOneCycle(ring, Successors(ring, s), Members(s), Front(s, n), n);
      p := LastBefore(ring, c, s, Front(s, n), n);
    }
    assert IsInPlace(ring, s, p);
  }

  /** No stale answer makes a member of an ideal ring look for a closer successor. */
  lemma NothingToAdopt(ring: Ring, c: Id, s: State, n: Id, x: Id)
    requires Inv(ring, c, s) && IsIdealRing(ring, s) && n in s.nodes
    requires Claim(ring, s, x, Front(s, n))
    ensures !Between(n, x, Front(s, n))
  {
    var f := Front(s, n);
    assert NodeOk(ring, s, c, n) && f in ring;
    BetweenFullCircle(n, f);
    if x != f {
      PathsStayInside(ring, c, s, x, f);
      assert IsMember(s, n);
      assert IsInPlace(ring, s, n);
      assert Lap(ring, n, f) <= Lap(ring, n, x);
      BetweenComparesDistances(ring, n, x, f);
    }
  }

  /** No stale notification changes the predecessor of a member of an ideal ring. */
  lemma NothingToNotify(ring: Ring, c: Id, s: State, n: Id, from: Id)
    requires Inv(ring, c, s) && IsIdealRing(ring, s) && IsMember(s, n) && Claim(ring, s, from, n)
    ensures Notified(s.nodes[n].table, from) == s.nodes[n].table
  {
    var p := MemberBefore(ring, c, s, n);
    assert Front(s, n) in ring;
    if from == n {
      BetweenFullCircle(p, n);
    } else {
      assert from in Members(s) && Lap(ring, p, n) <= Lap(ring, p, from);
      BetweenComparesDistances(ring, p, from, n);
    }
  }

  /** On an ideal ring nobody is about to adopt another successor. */
  lemma NobodyAdopts(ring: Ring, c: Id, s: State, n: Id)
    requires Inv(ring, c, s) && IsIdealRing(ring, s)
    ensures !Can(s, TakeSelf(n))
  {
    if Can(s, TakeSelf(n)) {
      AdoptedFront(ring, c, s, n);
      NothingToAdopt(ring, c, s, n, s.nodes[n].stabilizing.target);
    }
  }

  lemma SamePointersStayIdeal(ring: Ring, c: Id, s: State, s': State)
    requires Inv(ring, c, s) && Inv(ring, c, s') && IsIdealRing(ring, s) && Members(s') == Members(s)
    requires forall m {:trigger Front(s', m)} :: Front(s', m) == Front(s, m)
    requires forall m {:trigger IsMember(s, m)} | IsMember(s, m) ::
               m in s'.nodes && s'.nodes[m].table.pred == s.nodes[m].table.pred
    ensures IsIdealRing(ring, s')
  {
    forall m | IsMember(s', m) ensures IsInPlace(ring, s', m) {
      assert m in Members(s);
      assert NodeOk(ring, s, c, m) && IsInPlace(ring, s, m) && Front(s', m) == Front(s, m);
    }
  }

  /** Until somebody links in, every step leaves the ideal ring as it is. */
  lemma IdealIsStable(ring: Ring, c: Id, s: State, step: Step)
    requires Inv(ring, c, s) && IsIdealRing(ring, s) && Can(s, step) && !step.Link?
    ensures var s' := Do(s, step);
            && Inv(ring, c, s') && IsIdealRing(ring, s') && Members(s') == Members(s)
            && (forall m {:trigger Front(s', m)} :: Front(s', m) == Front(s, m))
  {
    var n, s' := step.n, Do(s, step);
    StepKeepsInv(ring, c, s, step);
    assert NodeOk(ring, s, c, n);
    NobodyAdopts(ring, c, s, n);
    IdealStepKeepsPointers(ring, c, s, step);
    forall m ensures IsMember(s', m) == IsMember(s, m) && Front(s', m) == Front(s, m) {}
    assert Members(s') == Members(s);
    SamePointersStayIdeal(ring, c, s, s');
  }

  lemma DeliverKeepsPointers(ring: Ring, c: Id, s: State, n: Id, from: Id)
    requires Inv(ring, c, s) && IsIdealRing(ring, s) && Can(s, Deliver(n, from))
    ensures var s' := Do(s, Deliver(n, from)); Front(s', n) == Front(s, n) && s'.nodes[n].joining == s.nodes[n].joining
    ensures IsMember(s, n) ==> Do(s, Deliver(n, from)).nodes[n].table == s.nodes[n].table
  {
    assert Claim(ring, s, (from, n).0, (from, n).1);
    if IsMember(s, n) { NothingToNotify(ring, c, s, n, from); }
  }

  lemma TakePredKeepsPointers(ring: Ring, c: Id, s: State, n: Id)
    requires Inv(ring, c, s) && Can(s, TakePred(n))
    ensures var s' := Do(s, TakePred(n));
            && s'.nodes.Keys == s.nodes.Keys && s'.nodes[n].joining == s.nodes[n].joining
            && Front(s', n) == Front(s, n) && s'.nodes[n].table.pred == s.nodes[n].table.pred
  {
    TakePredChanges(ring, c, s, n);
    assert n in ring;
  }

  lemma IdealStepKeepsPointers(ring: Ring, c: Id, s: State, step: Step)
    requires Inv(ring, c, s) && IsIdealRing(ring, s) && Can(s, step) && !step.Link? && !step.TakeSelf?
    ensures var n, s' := step.n, Do(s, step);
            && s'.nodes.Keys == s.nodes.Keys && IsMember(s', n) == IsMember(s, n) && Front(s', n) == Front(s, n)
            && (IsMember(s, n) ==> s'.nodes[n].table.pred == s.nodes[n].table.pred)
  {
    var n := step.n;
    assert NodeOk(ring, s, c, n) && Front(s, n) in ring;
    match step
    case TakePred(_) => TakePredKeepsPointers(ring, c, s, n);
    case Deliver(_, from) => DeliverKeepsPointers(ring, c, s, n, from);
    case FinishJoin(_) => FinishJoinKeepsInv(ring, c, s, n);
    case _ =>
  }
}
