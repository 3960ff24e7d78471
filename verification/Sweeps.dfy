/** Fair runs reach the ideal ring: enough sweeps of stabilization, and every lookup is right. */
module Sweeps {
  import opened Identifiers
  import opened RoutingTables
  import opened Rings
  import opened RingInvariants
  import opened Convergence
  import opened IdealRings
  import opened SuccessorLists
  import opened Lookups

  function Pred(s: State, n: Id): Option<Id> {
    if n in s.nodes then s.nodes[n].table.pred else None
  }

  /* ---------- Sweeps ---------- */

  /**
   * In the course of the run `n` is answered by its successor, takes that answer, and adopts the closer node if there
   * is one.  `answered` says whether the answer was given already.
   */
  predicate TakesTurn(s: State, steps: seq<Step>, n: Id, answered: bool)
    requires CanRun(s, steps)
    decreases |steps|
  {
    steps != [] &&
    var step, s', rest := steps[0], Do(s, steps[0]), steps[1..];
    if step == AnswerPred(n) then TakesTurn(s', rest, n, true)
    else if answered && step == TakePred(n) then
      n in s'.nodes && (s'.nodes[n].stabilizing.AskedSelf? ==> TakeSelf(n) in rest)
    else TakesTurn(s', rest, n, answered)
  }

  /** In the course of the run a notification from `n` reaches the successor it has then. */
  predicate IsHeard(s: State, steps: seq<Step>, n: Id)
    requires CanRun(s, steps)
    decreases |steps|
  {
    steps != [] && (steps[0] == Deliver(Front(s, n), n) || IsHeard(Do(s, steps[0]), steps[1..], n))
  }

  /** A run in which every member takes its turn and is heard, in whatever order and among whatever else. */
  predicate IsSweep(s: State, steps: seq<Step>) {
    CanRun(s, steps) &&
    forall n | n in s.nodes && IsMember(s, n) :: TakesTurn(s, steps, n, false) && IsHeard(s, steps, n)
  }

  predicate AreSweeps(s: State, sweeps: seq<seq<Step>>)
    decreases |sweeps|
  {
    sweeps == [] || (IsSweep(s, sweeps[0]) && AreSweeps(Run(s, sweeps[0]), sweeps[1..]))
  }

  function RunSweeps(s: State, sweeps: seq<seq<Step>>): State
    requires AreSweeps(s, sweeps)
    decreases |sweeps|
  {
    if sweeps == [] then s else RunSweeps(Run(s, sweeps[0]), sweeps[1..])
  }

  /* ---------- A sweep that changes nothing has found nothing to change ---------- */

  ghost predicate SamePointers(s: State, s': State) {
    && (forall m {:trigger Front(s', m)} :: Front(s', m) == Front(s, m))
    && (forall m {:trigger Pred(s', m)} :: Pred(s', m) == Pred(s, m))
    && (forall m {:trigger IsMember(s', m)} :: IsMember(s', m) == IsMember(s, m))
  }

  lemma OnlyLinkAddsMembers(s: State, step: Step)
    requires Can(s, step) && !step.Link?
    ensures var s' := Do(s, step);
            && step.n in s'.nodes && s'.nodes == s.nodes[step.n := s'.nodes[step.n]]
            && IsMember(s', step.n) == IsMember(s, step.n)
  {
  }

  lemma LinkChanges(ring: Ring, c: Id, s: State, n: Id)
    requires Inv(ring, c, s) && Can(s, Link(n))
    ensures Changes(s, Link(n))
  {
    assert NodeOk(ring, s, c, n);
    LinkKeepsInv(ring, c, s, n);
  }

  lemma UnchangedStep(ring: Ring, c: Id, s: State, step: Step)
    requires Inv(ring, c, s) && Can(s, step) && !Changes(s, step)
    ensures SamePointers(s, Do(s, step))
  {
    if step.Link? {
      LinkChanges(ring, c, s, step.n);
    } else {
      OnlyLinkAddsMembers(s, step);
    }
  }

  /** The closer node `n` would adopt if it were answered now. */
  predicate Adopts(s: State, n: Id) {
    Pred(s, Front(s, n)).Some? && Between(n, Pred(s, Front(s, n)).value, Front(s, n))
  }

  /** What `n` was answered still tells its successor's predecessor. */
  predicate IsCurrent(s: State, n: Id) {
    n in s.nodes && s.nodes[n].stabilizing.GotPred? ==>
      var peers, pred := s.nodes[n].stabilizing.peers, Pred(s, Front(s, n));
      if pred.None? then peers == [] else peers != [] && peers[0] == pred.value
  }

  lemma AnswerIsCurrent(ring: Ring, c: Id, s: State, n: Id)
    requires Inv(ring, c, s) && Can(s, AnswerPred(n))
    ensures IsCurrent(Do(s, AnswerPred(n)), n)
  {
    assert NodeOk(ring, s, c, n) && Front(s, n) in ring;
  }

  lemma AnswerStaysCurrent(s: State, step: Step, n: Id)
    requires Can(s, step) && IsCurrent(s, n) && step != AnswerPred(n)
    requires var s' := Do(s, step); Front(s', n) == Front(s, n) && Pred(s', Front(s, n)) == Pred(s, Front(s, n))
    ensures IsCurrent(Do(s, step), n)
  {
  }

  lemma AdoptingChanges(ring: Ring, c: Id, s: State, n: Id)
    requires Inv(ring, c, s) && Can(s, TakeSelf(n))
    ensures Changes(s, TakeSelf(n))
  {
    TakeSelfKeepsInv(ring, c, s, n);
    AdoptedFront(ring, c, s, n);
    BetweenFullCircle(n, Front(s, n));
  }

  lemma {:induction false} AdoptingCounts(ring: Ring, c: Id, s: State, steps: seq<Step>, n: Id)
    requires Inv(ring, c, s) && CanRun(s, steps) && TakeSelf(n) in steps
    ensures ChangeCount(s, steps) > 0
    decreases |steps|
  {
    if steps[0] == TakeSelf(n) {
      AdoptingChanges(ring, c, s, n);
    } else {
      StepKeepsInv(ring, c, s, steps[0]);
      AdoptingCounts(ring, c, Do(s, steps[0]), steps[1..], n);
    }
  }

  /** A current answer that names a closer node makes `n` ask it. */
  lemma TakingAsks(ring: Ring, c: Id, s: State, n: Id)
    requires Inv(ring, c, s) && Can(s, TakePred(n)) && IsCurrent(s, n) && Adopts(s, n)
    ensures Do(s, TakePred(n)).nodes[n].stabilizing.AskedSelf?
  {
    TakePredChanges(ring, c, s, n);
  }

  /** A member that takes its turn in a run without changes has no closer node to adopt. */
  lemma {:induction false} TurnAdoptsNothing(ring: Ring, c: Id, s: State, steps: seq<Step>, n: Id, answered: bool)
    requires Inv(ring, c, s) && CanRun(s, steps) && TakesTurn(s, steps, n, answered) && ChangeCount(s, steps) == 0
    requires answered ==> IsCurrent(s, n)
    ensures !Adopts(s, n)
    decreases |steps|
  {
    var step, s', rest := steps[0], Do(s, steps[0]), steps[1..];
    StepKeepsInv(ring, c, s, step);
    UnchangedStep(ring, c, s, step);
    assert Front(s', n) == Front(s, n) && Pred(s', Front(s', n)) == Pred(s, Front(s, n));
    if step == AnswerPred(n) {
      AnswerIsCurrent(ring, c, s, n);
      TurnAdoptsNothing(ring, c, s', rest, n, true);
    } else if answered && step == TakePred(n) {
      if Adopts(s, n) {
        TakingAsks(ring, c, s, n);
        AdoptingCounts(ring, c, s', rest, n);
      }
    } else {
      if answered { AnswerStaysCurrent(s, step, n); }
      TurnAdoptsNothing(ring, c, s', rest, n, answered);
    }
  }

  /** A member heard in a run without changes is nobody its successor would take for a nearer predecessor. */
  lemma {:induction false} HearingChangesNothing(ring: Ring, c: Id, s: State, steps: seq<Step>, n: Id)
    requires Inv(ring, c, s) && CanRun(s, steps) && IsHeard(s, steps, n) && ChangeCount(s, steps) == 0
    ensures var f := Front(s, n); Pred(s, f).Some? && !Between(Pred(s, f).value, n, f)
    decreases |steps|
  {
    var step, s' := steps[0], Do(s, steps[0]);
    StepKeepsInv(ring, c, s, step);
    UnchangedStep(ring, c, s, step);
    var f := Front(s, n);
    assert Pred(s', f) == Pred(s, f) && Front(s', n) == f;
    if step == Deliver(f, n) {
      assert Front(s, f) in ring;
      if Pred(s, f).Some? { BetweenFullCircle(n, f); }
    } else {
      HearingChangesNothing(ring, c, s', steps[1..], n);
    }
  }

  /** A member that took its turn and was heard without anything changing was content. */
  lemma QuietTurnIsContent(ring: Ring, c: Id, s: State, steps: seq<Step>, n: Id)
    requires Inv(ring, c, s) && CanRun(s, steps) && IsMember(s, n) && ChangeCount(s, steps) == 0
    requires TakesTurn(s, steps, n, false) && IsHeard(s, steps, n)
    ensures IsContent(s, n)
  {
    TurnAdoptsNothing(ring, c, s, steps, n, false);
    HearingChangesNothing(ring, c, s, steps, n);
    assert NodeOk(ring, s, c, n) && Front(s, n) in ring;
    assert Front(s, Front(s, n)) in ring;
  }

  /** A sweep without changes starts, and ends, on the ideal ring. */
  lemma QuietSweepIsIdeal(ring: Ring, c: Id, s: State, steps: seq<Step>)
    requires Inv(ring, c, s) && IsSweep(s, steps) && ChangeCount(s, steps) == 0
    ensures IsIdealRing(ring, s)
  {
    forall n | IsMember(s, n) ensures IsContent(s, n) {
      QuietTurnIsContent(ring, c, s, steps, n);
    }
    QuiescentIffIdeal(ring, c, s);
  }

  /* ---------- Enough sweeps ---------- */

  /** One of the sweeps starts on the ideal ring. */
  ghost predicate MeetsIdealRing(ring: Ring, s: State, sweeps: seq<seq<Step>>)
    requires AreSweeps(s, sweeps)
    decreases |sweeps|
  {
    sweeps != [] &&
    ((IsShaped(ring, s) && IsIdealRing(ring, s)) || MeetsIdealRing(ring, Run(s, sweeps[0]), sweeps[1..]))
  }

  /** More sweeps than there is disorder meet the ideal ring, whatever joins and stale answers come between. */
  lemma {:induction false} SweepsMeetIdealRing(ring: Ring, c: Id, s: State, sweeps: seq<seq<Step>>)
    requires Inv(ring, c, s) && AreSweeps(s, sweeps) && |sweeps| > Disorder(ring, s, |ring|)
    ensures MeetsIdealRing(ring, s, sweeps)
    decreases |sweeps|
  {
    if ChangeCount(s, sweeps[0]) == 0 {
      QuietSweepIsIdeal(ring, c, s, sweeps[0]);
    } else {
      ChangesAreBounded(ring, c, s, sweeps[0]);
      RunKeepsPaths(ring, c, s, sweeps[0]);
      SweepsMeetIdealRing(ring, c, Run(s, sweeps[0]), sweeps[1..]);
    }
  }

  /* ---------- From any state to right answers ---------- */

  predicate LinksNobody(steps: seq<Step>) {
    forall step | step in steps :: !step.Link?
  }

  predicate AllLinkNobody(sweeps: seq<seq<Step>>) {
    forall steps | steps in sweeps :: LinksNobody(steps)
  }

  predicate AllQuiet(sweeps: seq<seq<Step>>) {
    forall steps | steps in sweeps :: AreQuiet(steps)
  }

  lemma {:induction false} IdealStays(ring: Ring, c: Id, s: State, steps: seq<Step>)
    requires Inv(ring, c, s) && IsIdealRing(ring, s) && CanRun(s, steps) && LinksNobody(steps)
    ensures Inv(ring, c, Run(s, steps)) && IsIdealRing(ring, Run(s, steps))
    decreases |steps|
  {
    if steps != [] {
      assert steps[0] in steps && forall r | r in steps[1..] :: r in steps;
      IdealIsStable(ring, c, s, steps[0]);
      IdealStays(ring, c, Do(s, steps[0]), steps[1..]);
    }
  }

  lemma {:induction false} IdealStaysInSweeps(ring: Ring, c: Id, s: State, sweeps: seq<seq<Step>>)
    requires Inv(ring, c, s) && IsIdealRing(ring, s) && AreSweeps(s, sweeps) && AllLinkNobody(sweeps)
    ensures Inv(ring, c, RunSweeps(s, sweeps)) && IsIdealRing(ring, RunSweeps(s, sweeps))
    decreases |sweeps|
  {
    if sweeps != [] {
      assert sweeps[0] in sweeps && forall r | r in sweeps[1..] :: r in sweeps;
      IdealStays(ring, c, s, sweeps[0]);
      IdealStaysInSweeps(ring, c, Run(s, sweeps[0]), sweeps[1..]);
    }
  }

  /** Once no more nodes link in, more sweeps than there is disorder end on the ideal ring. */
  lemma {:induction false} SweepsEndIdeal(ring: Ring, c: Id, s: State, sweeps: seq<seq<Step>>)
    requires Inv(ring, c, s) && AreSweeps(s, sweeps) && AllLinkNobody(sweeps)
    requires |sweeps| > Disorder(ring, s, |ring|)
    ensures Inv(ring, c, RunSweeps(s, sweeps)) && IsIdealRing(ring, RunSweeps(s, sweeps))
    decreases |sweeps|
  {
    if ChangeCount(s, sweeps[0]) == 0 {
      QuietSweepIsIdeal(ring, c, s, sweeps[0]);
      IdealStaysInSweeps(ring, c, s, sweeps);
    } else {
      assert forall r | r in sweeps[1..] :: r in sweeps;
      ChangesAreBounded(ring, c, s, sweeps[0]);
      RunKeepsPaths(ring, c, s, sweeps[0]);
      SweepsEndIdeal(ring, c, Run(s, sweeps[0]), sweeps[1..]);
    }
  }

  /** On an ideal ring a turn renews the member's list. */
  lemma {:induction false} TurnRenews(
    ring: Ring, c: Id, s: State, steps: seq<Step>, n: Id, answered: bool, anew: set<Id>)
    requires Inv(ring, c, s) && IsIdealRing(ring, s) && IsMember(s, n)
    requires CanRun(s, steps) && AreQuiet(steps) && TakesTurn(s, steps, n, answered)
    requires answered ==> IsCurrent(s, n) && n in anew
    ensures n in RenewedBy(s, steps, anew)
    decreases |steps|
  {
    var step, s', rest := steps[0], Do(s, steps[0]), steps[1..];
    var anew' := AnsweredAfter(step, anew);
    assert step in steps && forall r | r in rest :: r in steps;
    IdealIsStable(ring, c, s, step);
    assert n in Members(s') && IsMember(s', n) && IsInPlace(ring, s, n) && IsInPlace(ring, s', n);
    assert Front(s', n) == Front(s, n) && Front(s, n) in ring;
    if step == AnswerPred(n) {
      AnswerIsCurrent(ring, c, s, n);
      TurnRenews(ring, c, s', rest, n, true, anew');
    } else if answered && step == TakePred(n) {
      assert Refreshes(s, step);
    } else {
      if answered { AnswerStaysCurrent(s, step, n); }
      TurnRenews(ring, c, s', rest, n, answered, anew');
    }
  }

  /** On an ideal ring quiet sweeps are rounds. */
  lemma {:induction false} SweepsAreRounds(ring: Ring, c: Id, s: State, sweeps: seq<seq<Step>>)
    requires Inv(ring, c, s) && IsIdealRing(ring, s) && AreSweeps(s, sweeps) && AllQuiet(sweeps)
    ensures AreRounds(s, sweeps) && RunRounds(s, sweeps) == RunSweeps(s, sweeps)
    decreases |sweeps|
  {
    if sweeps != [] {
      assert sweeps[0] in sweeps && forall r | r in sweeps[1..] :: r in sweeps;
      forall n | n in s.nodes && IsMember(s, n) ensures n in RenewedBy(s, sweeps[0], {}) {
        TurnRenews(ring, c, s, sweeps[0], n, false, {});
      }
      AnyStateIsFilledToOne(ring, c, s);
      RoundLifts(ring, c, s, sweeps[0], 1);
      SweepsAreRounds(ring, c, Run(s, sweeps[0]), sweeps[1..]);
    }
  }

  /** Nine quiet sweeps on an ideal ring make every lookup right. */
  lemma SweptRingAnswersRightly(ring: Ring, c: Id, s: State, sweeps: seq<seq<Step>>)
    requires Inv(ring, c, s) && IsIdealRing(ring, s) && AreSweeps(s, sweeps) && AllQuiet(sweeps)
    requires |sweeps| >= SUCC_LIST_SIZE - 1
    ensures var s' := RunSweeps(s, sweeps);
            Inv(ring, c, s') && IsIdealRing(ring, s') && AnswersRightly(ring, s') && Members(s') == Members(s)
  {
    SweepsAreRounds(ring, c, s, sweeps);
    RoundsKeepIdeal(ring, c, s, sweeps);
    SettledLookupsAreRight(ring, c, s, sweeps);
  }

  /**
   * Once nobody links in any more, sweeps enough for the disorder lead to the ideal ring; once joiners have their
   * lists too, nine more make every lookup right.
   */
  lemma SweepsSettleLookups(ring: Ring, c: Id, s: State, first: seq<seq<Step>>, last: seq<seq<Step>>)
    requires Inv(ring, c, s) && AreSweeps(s, first) && AllLinkNobody(first) && |first| > Disorder(ring, s, |ring|)
    requires AreSweeps(RunSweeps(s, first), last) && AllQuiet(last) && |last| >= SUCC_LIST_SIZE - 1
    ensures var s' := RunSweeps(RunSweeps(s, first), last);
            IsShaped(ring, s') && IsIdealRing(ring, s') && AnswersRightly(ring, s')
  {
    SweepsEndIdeal(ring, c, s, first);
    SweptRingAnswersRightly(ring, c, RunSweeps(s, first), last);
  }

  /** Wherever a run from the start has led with `n` nodes, `n * (2n + 1)` sweeps and one, and then nine, are enough. */
  lemma EveryLookupIsRightInTheEnd(
    ring: Ring, c: Id, steps: seq<Step>, first: seq<seq<Step>>, last: seq<seq<Step>>)
    requires IsRing(ring) && NO_ID !in ring && c in ring && CanRun(Start(ring, c), steps)
    requires AreSweeps(Run(Start(ring, c), steps), first) && AllLinkNobody(first)
    requires |first| > |ring| * (2 * |ring| + 1)
    requires AreSweeps(RunSweeps(Run(Start(ring, c), steps), first), last) && AllQuiet(last)
    requires |last| >= SUCC_LIST_SIZE - 1
    ensures var s' := RunSweeps(RunSweeps(Run(Start(ring, c), steps), first), last);
            IsShaped(ring, s') && IsIdealRing(ring, s') && AnswersRightly(ring, s')
  {
    StartIsOk(ring, c);
    RunKeepsPaths(ring, c, Start(ring, c), steps);
    StartDisorder(ring, c, |ring|);
    ChangesAreBounded(ring, c, Start(ring, c), steps);
    SweepsSettleLookups(ring, c, Run(Start(ring, c), steps), first, last);
  }
}
