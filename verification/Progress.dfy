/** Where members can begin to stabilize, nothing stands in the way of sweeps, or of the ideal ring. */
module Progress {
  import opened Identifiers
  import opened Rings
  import opened RingInvariants
  import opened Convergence
  import opened IdealRings
  import opened SuccessorLists
  import opened Sweeps

  /* ---------- One turn ---------- */

  /** `m` rests, and its successor has a predecessor to name. */
  predicate CanBegin(s: State, m: Id) {
    m in s.nodes && s.nodes[m].stabilizing.Resting? && Pred(s, Front(s, m)).Some?
  }

  ghost predicate IsReadyBut(s: State, n: Id) {
    forall m {:trigger CanBegin(s, m)} {:trigger IsMember(s, m)} | IsMember(s, m) && m != n :: CanBegin(s, m)
  }

  /** Every member could begin to stabilize. */
  ghost predicate IsReady(s: State) {
    forall m {:trigger CanBegin(s, m)} {:trigger IsMember(s, m)} | IsMember(s, m) :: CanBegin(s, m)
  }

  /** No step takes a predecessor away. */
  lemma PredsStay(s: State, step: Step)
    requires Can(s, step)
    ensures forall m {:trigger Pred(Do(s, step), m)} :: Pred(s, m).Some? ==> Pred(Do(s, step), m).Some?
  {
  }

  lemma OthersStayReady(s: State, step: Step, m: Id)
    requires Can(s, step) && m != step.n && CanBegin(s, m)
    ensures CanBegin(Do(s, step), m)
  {
    PredsStay(s, step);
    assert Front(Do(s, step), m) == Front(s, m);
  }

  lemma StepKeepsReady(s: State, step: Step)
    requires Can(s, step) && !step.Link? && IsReadyBut(s, step.n)
    ensures IsReadyBut(Do(s, step), step.n)
  {
    OnlyLinkAddsMembers(s, step);
    forall m | IsMember(Do(s, step), m) && m != step.n ensures CanBegin(Do(s, step), m) {
      assert IsMember(s, m);
      OthersStayReady(s, step, m);
    }
  }

  /** No other member is answered on the way, and only members take steps. */
  ghost predicate IsTurnOf(s: State, steps: seq<Step>, n: Id) {
    AreQuiet(steps) && forall step | step in steps :: IsMember(s, step.n) && (step.AnswerPred? ==> step.n == n)
  }

  /** What is left of a turn: a run in which `n` is heard, and after which everybody is ready. */
  ghost predicate EndsTurn(s: State, steps: seq<Step>, n: Id) {
    CanRun(s, steps) && IsTurnOf(s, steps, n) && IsHeard(s, steps, n) && IsReady(Run(s, steps))
  }

  lemma EarlierStep(s: State, step: Step, rest: seq<Step>, n: Id)
    requires Can(s, step) && IsQuiet(step) && step.n == n && IsMember(s, n) && EndsTurn(Do(s, step), rest, n)
    ensures EndsTurn(s, [step] + rest, n)
  {
    assert ([step] + rest)[1..] == rest;
    OnlyLinkAddsMembers(s, step);
    forall r | r in [step] + rest ensures IsQuiet(r) && IsMember(s, r.n) && (r.AnswerPred? ==> r.n == n) {
      assert r == step || (r in rest && IsMember(Do(s, step), r.n));
    }
  }

  /** `n` rests and has notified its successor, which hears it now. */
  lemma HearsNow(ring: Ring, c: Id, s: State, n: Id)
    requires Inv(ring, c, s) && IsMember(s, n) && IsReadyBut(s, n)
    requires s.nodes[n].stabilizing.Resting? && (n, Front(s, n)) in s.notices
    ensures EndsTurn(s, [Deliver(Front(s, n), n)], n)
  {
    var f, step := Front(s, n), Deliver(Front(s, n), n);
    assert NodeOk(ring, s, c, n) && f in ring && IsMember(s, f) && [step][1..] == [];
    var s' := Do(s, step);
    OnlyLinkAddsMembers(s, step);
    PredsStay(s, step);
    forall m | IsMember(s', m) ensures CanBegin(s', m) {
      assert IsMember(s, m) && Front(s', m) == Front(s, m) && s'.nodes[m].stabilizing == s.nodes[m].stabilizing;
      if m != n { assert CanBegin(s, m); }
    }
  }

  /** `n` has still to ask the closer node. */
  lemma AdoptsNow(ring: Ring, c: Id, s: State, n: Id) returns (rest: seq<Step>)
    requires Inv(ring, c, s) && IsMember(s, n) && IsReadyBut(s, n) && s.nodes[n].stabilizing.AskedSelf?
    ensures EndsTurn(s, rest, n) && TakeSelf(n) in rest
  {
    assert NodeOk(ring, s, c, n);
    var s1 := Do(s, AnswerSelf(n));
    StepKeepsInv(ring, c, s, AnswerSelf(n));
    StepKeepsReady(s, AnswerSelf(n));
    var s2 := Do(s1, TakeSelf(n));
    StepKeepsInv(ring, c, s1, TakeSelf(n));
    StepKeepsReady(s1, TakeSelf(n));
    OnlyLinkAddsMembers(s, AnswerSelf(n));
    OnlyLinkAddsMembers(s1, TakeSelf(n));
    HearsNow(ring, c, s2, n);
    rest := [Deliver(Front(s2, n), n)];
    EarlierStep(s1, TakeSelf(n), rest, n);
    rest := [TakeSelf(n)] + rest;
    EarlierStep(s, AnswerSelf(n), rest, n);
    rest := [AnswerSelf(n)] + rest;
    assert rest[1] == TakeSelf(n);
  }

  /** `n` has been answered. */
  lemma TakesNow(ring: Ring, c: Id, s: State, n: Id) returns (steps: seq<Step>)
    requires Inv(ring, c, s) && IsMember(s, n) && IsReadyBut(s, n)
    requires s.nodes[n].stabilizing.GotPred? && s.nodes[n].stabilizing.peers != []
    ensures EndsTurn(s, steps, n) && TakesTurn(s, steps, n, true)
  {
    var s' := Do(s, TakePred(n));
    StepKeepsInv(ring, c, s, TakePred(n));
    StepKeepsReady(s, TakePred(n));
    OnlyLinkAddsMembers(s, TakePred(n));
    TakePredChanges(ring, c, s, n);
    var rest;
    if s'.nodes[n].stabilizing.AskedSelf? {
      rest := AdoptsNow(ring, c, s', n);
    } else {
      HearsNow(ring, c, s', n);
      rest := [Deliver(Front(s', n), n)];
    }
    steps := [TakePred(n)] + rest;
    EarlierStep(s, TakePred(n), rest, n);
    assert steps[1..] == rest;
  }

  /** `n` has asked a successor that has a predecessor to name. */
  lemma AnswersNow(ring: Ring, c: Id, s: State, n: Id) returns (steps: seq<Step>)
    requires Inv(ring, c, s) && IsMember(s, n) && IsReadyBut(s, n)
    requires s.nodes[n].stabilizing.AskedPred? && Pred(s, Front(s, n)).Some?
    ensures EndsTurn(s, steps, n) && TakesTurn(s, steps, n, false)
  {
    assert NodeOk(ring, s, c, n) && Front(s, n) in ring;
    StepKeepsInv(ring, c, s, AnswerPred(n));
    StepKeepsReady(s, AnswerPred(n));
    OnlyLinkAddsMembers(s, AnswerPred(n));
    var taking := TakesNow(ring, c, Do(s, AnswerPred(n)), n);
    EarlierStep(s, AnswerPred(n), taking, n);
    steps := [AnswerPred(n)] + taking;
    assert steps[1..] == taking;
  }

  /** Any member of a ready ring can take its turn at once. */
  lemma TurnIsPossible(ring: Ring, c: Id, s: State, n: Id) returns (steps: seq<Step>)
    requires Inv(ring, c, s) && IsMember(s, n) && IsReady(s)
    ensures EndsTurn(s, steps, n) && TakesTurn(s, steps, n, false)
  {
    assert NodeOk(ring, s, c, n) && Front(s, n) in ring && CanBegin(s, n);
    StepKeepsInv(ring, c, s, AskPred(n));
    StepKeepsReady(s, AskPred(n));
    OnlyLinkAddsMembers(s, AskPred(n));
    PredsStay(s, AskPred(n));
    var s' := Do(s, AskPred(n));
    assert Front(s', n) == Front(s, n);
    var answering := AnswersNow(ring, c, s', n);
    EarlierStep(s, AskPred(n), answering, n);
    steps := [AskPred(n)] + answering;
    assert steps[1..] == answering;
  }

  /** A turn of a member that is not content changes something. */
  lemma TurnOfDiscontentChanges(ring: Ring, c: Id, s: State, steps: seq<Step>, n: Id)
    requires Inv(ring, c, s) && IsMember(s, n) && !IsContent(s, n)
    requires CanRun(s, steps) && TakesTurn(s, steps, n, false) && IsHeard(s, steps, n)
    ensures ChangeCount(s, steps) > 0
  {
    if ChangeCount(s, steps) == 0 { QuietTurnIsContent(ring, c, s, steps, n); }
  }

  /** Only members take steps. */
  predicate AreByMembers(s: State, steps: seq<Step>) {
    forall step | step in steps :: IsMember(s, step.n)
  }

  /** The same members, and nobody else has changed. */
  ghost predicate LeavesOthersAlone(s: State, s': State) {
    && (forall m {:trigger IsMember(s', m)} :: IsMember(s', m) == IsMember(s, m))
    && (forall m {:trigger IsMember(s, m)} | m in s.nodes && !IsMember(s, m) ::
          m in s'.nodes && s'.nodes[m] == s.nodes[m])
  }

  lemma MemberLeavesOthersAlone(s: State, step: Step)
    requires Can(s, step) && IsQuiet(step) && IsMember(s, step.n)
    ensures LeavesOthersAlone(s, Do(s, step))
  {
    OnlyLinkAddsMembers(s, step);
  }

  lemma LeavingAloneAddsUp(s: State, s1: State, s2: State)
    requires LeavesOthersAlone(s, s1) && LeavesOthersAlone(s1, s2)
    ensures LeavesOthersAlone(s, s2)
  {
    forall m ensures IsMember(s2, m) == IsMember(s, m) {
      assert IsMember(s1, m) == IsMember(s, m);
    }
    forall m | m in s.nodes && !IsMember(s, m) ensures m in s2.nodes && s2.nodes[m] == s.nodes[m] {
      assert !IsMember(s1, m) && s1.nodes[m] == s.nodes[m];
    }
  }

  lemma {:induction false} MembersLeaveOthersAlone(s: State, steps: seq<Step>)
    requires CanRun(s, steps) && AreQuiet(steps) && AreByMembers(s, steps)
    ensures LeavesOthersAlone(s, Run(s, steps))
    decreases |steps|
  {
    if steps != [] {
      var step, rest := steps[0], steps[1..];
      assert step in steps && forall r | r in rest :: r in steps;
      MemberLeavesOthersAlone(s, step);
      MembersLeaveOthersAlone(Do(s, step), rest);
      LeavingAloneAddsUp(s, Do(s, step), Run(s, steps));
    }
  }

  /* ---------- The ideal ring can be reached ---------- */

  /** From any state whose members can begin to stabilize, stabilizing alone can lead to the ideal ring. */
  lemma {:induction false} IdealRingIsReachable(ring: Ring, c: Id, s: State) returns (steps: seq<Step>)
    requires Inv(ring, c, s) && IsReady(s)
    ensures CanRun(s, steps) && AreQuiet(steps) && IsShaped(ring, Run(s, steps)) && IsIdealRing(ring, Run(s, steps))
    ensures Inv(ring, c, Run(s, steps)) && IsReady(Run(s, steps)) && AreByMembers(s, steps)
    decreases Disorder(ring, s, |ring|)
  {
    if IsIdealRing(ring, s) {
      steps := [];
    } else {
      QuiescentIffIdeal(ring, c, s);
      var n :| IsMember(s, n) && !IsContent(s, n);
      var turn := TurnIsPossible(ring, c, s, n);
      TurnOfDiscontentChanges(ring, c, s, turn, n);
      ChangesAreBounded(ring, c, s, turn);
      RunKeepsPaths(ring, c, s, turn);
      var rest := IdealRingIsReachable(ring, c, Run(s, turn));
      RunOfBoth(s, turn, rest);
      MembersLeaveOthersAlone(s, turn);
      steps := turn + rest;
      forall step | step in steps ensures IsMember(s, step.n) {
        assert step in turn || (step in rest && IsMember(Run(s, turn), step.n));
      }
    }
  }

  /* ---------- Sweeps are possible ---------- */

  lemma {:induction false} TurnInLongerRun(s: State, first: seq<Step>, second: seq<Step>, n: Id, answered: bool)
    requires CanRun(s, first) && CanRun(s, first + second) && TakesTurn(s, first, n, answered)
    ensures TakesTurn(s, first + second, n, answered)
    decreases |first|
  {
    var all := first + second;
    assert all[0] == first[0] && all[1..] == first[1..] + second;
    var s' := Do(s, first[0]);
    if first[0] == AnswerPred(n) {
      TurnInLongerRun(s', first[1..], second, n, true);
    } else if !(answered && first[0] == TakePred(n)) {
      TurnInLongerRun(s', first[1..], second, n, answered);
    }
  }

  lemma {:induction false} HeardInLongerRun(s: State, first: seq<Step>, second: seq<Step>, n: Id)
    requires CanRun(s, first) && CanRun(s, first + second) && IsHeard(s, first, n)
    ensures IsHeard(s, first + second, n)
    decreases |first|
  {
    assert (first + second)[0] == first[0] && (first + second)[1..] == first[1..] + second;
    if first[0] != Deliver(Front(s, n), n) { HeardInLongerRun(Do(s, first[0]), first[1..], second, n); }
  }

  lemma {:induction false} LaterTurn(s: State, first: seq<Step>, second: seq<Step>, n: Id)
    requires CanRun(s, first) && CanRun(Run(s, first), second) && CanRun(s, first + second)
    requires TakesTurn(Run(s, first), second, n, false) && IsHeard(Run(s, first), second, n) && AnswerPred(n) !in first
    ensures TakesTurn(s, first + second, n, false) && IsHeard(s, first + second, n)
    decreases |first|
  {
    if first == [] {
      assert first + second == second;
    } else {
      assert (first + second)[0] == first[0] && (first + second)[1..] == first[1..] + second;
      LaterTurn(Do(s, first[0]), first[1..], second, n);
    }
  }

  /** The members of `done` have had their turn. */
  ghost predicate HaveHadTurns(s: State, steps: seq<Step>, done: set<Id>)
    requires CanRun(s, steps)
  {
    && AreQuiet(steps) && (forall step | step in steps && step.AnswerPred? :: step.n in done)
    && forall n | n in done :: TakesTurn(s, steps, n, false) && IsHeard(s, steps, n)
  }

  lemma OneMoreTurn(s: State, steps: seq<Step>, turn: seq<Step>, done: set<Id>, n: Id)
    requires CanRun(s, steps) && HaveHadTurns(s, steps, done) && n !in done
    requires EndsTurn(Run(s, steps), turn, n) && TakesTurn(Run(s, steps), turn, n, false)
    ensures CanRun(s, steps + turn) && HaveHadTurns(s, steps + turn, done + {n})
    ensures IsReady(Run(s, steps + turn))
  {
    RunOfBoth(s, steps, turn);
    LaterTurn(s, steps, turn, n);
    forall m | m in done ensures TakesTurn(s, steps + turn, m, false) && IsHeard(s, steps + turn, m) {
      TurnInLongerRun(s, steps, turn, m, false);
      HeardInLongerRun(s, steps, turn, m);
    }
  }

  lemma {:induction false} TurnsArePossible(ring: Ring, c: Id, s: State, members: set<Id>) returns (steps: seq<Step>)
    requires Inv(ring, c, s) && IsReady(s) && forall m | m in members :: IsMember(s, m)
    ensures CanRun(s, steps) && HaveHadTurns(s, steps, members) && IsReady(Run(s, steps))
    decreases members
  {
    steps := [];
    if members != {} {
      var n :| n in members;
      steps := TurnsArePossible(ring, c, s, members - {n});
      RunKeepsPaths(ring, c, s, steps);
      assert IsMember(Run(s, steps), n);
      var turn := TurnIsPossible(ring, c, Run(s, steps), n);
      OneMoreTurn(s, steps, turn, members - {n}, n);
      steps := steps + turn;
      assert members - {n} + {n} == members;
    }
  }

  /** Any number of sweeps can follow a state whose members can begin to stabilize. */
  lemma {:induction false} SweepsArePossible(ring: Ring, c: Id, s: State, count: nat) returns (sweeps: seq<seq<Step>>)
    requires Inv(ring, c, s) && IsReady(s)
    ensures |sweeps| == count && AreSweeps(s, sweeps) && AllQuiet(sweeps)
    decreases count
  {
    sweeps := [];
    if count > 0 {
      var sweep := TurnsArePossible(ring, c, s, Members(s));
      assert forall n | n in s.nodes && IsMember(s, n) :: n in Members(s);
      assert IsSweep(s, sweep);
      RunKeepsPaths(ring, c, s, sweep);
      var rest := SweepsArePossible(ring, c, Run(s, sweep), count - 1);
      sweeps := [sweep] + rest;
      assert sweeps[1..] == rest;
    }
  }
}
