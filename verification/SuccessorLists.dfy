/** On an ideal ring, rounds of stabilization fill every successor list with the true walk round the ring. */
module SuccessorLists {
  import opened Identifiers
  import opened RoutingTables
  import opened Maintenance
  import opened Rings
  import opened RingInvariants
  import opened IdealRings

  /** The first `k` entries of `list` are the `k` nodes met walking clockwise from `n`. */
  ghost predicate Walks(s: State, n: Id, list: seq<Id>, k: nat)
    decreases k
  {
    k == 0 || (list != [] && list[0] == Front(s, n) && Walks(s, list[0], list[1..], k - 1))
  }

  lemma {:induction false} WalkLength(s: State, n: Id, list: seq<Id>, k: nat)
    requires Walks(s, n, list, k)
    ensures k <= |list|
    decreases k
  {
    if k > 0 { WalkLength(s, list[0], list[1..], k - 1); }
  }

  lemma {:induction false} ShorterWalk(s: State, n: Id, list: seq<Id>, k: nat, j: nat)
    requires Walks(s, n, list, k) && j <= k
    ensures Walks(s, n, list, j)
    decreases k
  {
    if j > 0 { ShorterWalk(s, list[0], list[1..], k - 1, j - 1); }
  }

  lemma {:induction false} WalkDependsOnFronts(s: State, s': State, n: Id, list: seq<Id>, k: nat)
    requires Walks(s, n, list, k) && forall m {:trigger Front(s', m)} :: Front(s', m) == Front(s, m)
    ensures Walks(s', n, list, k)
    decreases k
  {
    if k > 0 { WalkDependsOnFronts(s, s', list[0], list[1..], k - 1); }
  }

  lemma {:induction false} WalkOfSameEntries(s: State, n: Id, list: seq<Id>, list': seq<Id>, k: nat)
    requires Walks(s, n, list, k) && k <= |list'| && forall i | 0 <= i < k && i < |list| :: list'[i] == list[i]
    ensures Walks(s, n, list', k)
    decreases k
  {
    WalkLength(s, n, list, k);
    if k > 0 {
      assert list'[0] == list[0];
      forall i | 0 <= i < k - 1 && i < |list[1..]| ensures list'[1..][i] == list[1..][i] {
        assert list'[i + 1] == list[i + 1];
      }
      WalkOfSameEntries(s, list[0], list[1..], list'[1..], k - 1);
    }
  }

  function Min(a: nat, b: nat): nat { if a <= b then a else b }

  /** A node's new list walks one step further than the list it was answered. */
  lemma AnsweredWalk(s: State, t: Table, n: Id, peers: seq<Id>, k: nat)
    requires t.self == Some(n) && t.succs != [] && t.succs[0] == Front(s, n)
    requires |peers| > 1 && Walks(s, Front(s, n), peers[1..], k)
    ensures Walks(s, n, OnPredReply(t, peers).0.succs, Min(k + 1, SUCC_LIST_SIZE))
  {
    var list := [t.succs[0]] + peers[1..];
    var d := Min(k + 1, SUCC_LIST_SIZE);
    assert list[1..] == peers[1..];
    assert Walks(s, n, list, k + 1);
    ShorterWalk(s, n, list, k + 1, d);
    WalkLength(s, n, list, d);
    WalkOfSameEntries(s, n, list, Resized(list), d);
  }

  /* ---------- Depth of all lists ---------- */

  /** `n` took its successor's predecessor and list. */
  predicate Refreshes(s: State, step: Step)
    requires Can(s, step)
  {
    step.TakePred? && s.nodes[step.n].stabilizing.peers != []
  }

  /**
   * In the course of a round: lists walk to depth `k`, those of nodes that are `done` one step further; answers on
   * their way walk to depth `k - 1`, those to nodes answered `anew` one step further.
   */
  ghost predicate IsFilledAt(s: State, k: nat, anew: set<Id>, done: set<Id>, n: Id)
    requires n in s.nodes && k > 0
  {
    var node := s.nodes[n];
    && Walks(s, n, node.table.succs, if n in done then Min(k + 1, SUCC_LIST_SIZE) else k)
    && (node.stabilizing.GotPred? && node.stabilizing.peers != [] ==>
          |node.stabilizing.peers| > 1 &&
          Walks(s, Front(s, n), node.stabilizing.peers[1..], if n in anew then k else k - 1))
  }

  ghost predicate IsFilled(s: State, k: nat, anew: set<Id>, done: set<Id>)
    requires k > 0
  {
    forall n {:trigger IsFilledAt(s, k, anew, done, n)} | IsMember(s, n) :: IsFilledAt(s, k, anew, done, n)
  }

  /** A quiet step neither links a new member nor splices in a joiner's list. */
  predicate IsQuiet(step: Step) {
    !step.Link? && !step.FinishJoin?
  }

  predicate IsDepth(k: nat) {
    0 < k <= SUCC_LIST_SIZE
  }

  function AnsweredAfter(step: Step, anew: set<Id>): set<Id> {
    if step.AnswerPred? then anew + {step.n} else anew
  }

  function DoneAfter(s: State, step: Step, anew: set<Id>, done: set<Id>): set<Id>
    requires Can(s, step)
  {
    if Refreshes(s, step) && step.n in anew then done + {step.n} else done
  }

  lemma UntouchedStaysFilled(s: State, s': State, k: nat, anew: set<Id>, done: set<Id>, m: Id)
    requires k > 0 && m in s.nodes && m in s'.nodes && IsFilledAt(s, k, anew, done, m)
    requires s'.nodes[m].table.succs == s.nodes[m].table.succs
    requires s'.nodes[m].stabilizing == s.nodes[m].stabilizing || !s'.nodes[m].stabilizing.GotPred?
    requires forall p {:trigger Front(s', p)} :: Front(s', p) == Front(s, p)
    ensures IsFilledAt(s', k, anew, done, m)
  {
    var node := s.nodes[m];
    WalkDependsOnFronts(s, s', m, node.table.succs, if m in done then Min(k + 1, SUCC_LIST_SIZE) else k);
    if s'.nodes[m].stabilizing.GotPred? && node.stabilizing.peers != [] {
      WalkDependsOnFronts(s, s', Front(s, m), node.stabilizing.peers[1..], if m in anew then k else k - 1);
    }
  }

  /** An answer given now carries a list that walks to depth `k`. */
  lemma AnswerPredIsFilled(ring: Ring, c: Id, s: State, n: Id, k: nat, anew: set<Id>, done: set<Id>)
    requires Inv(ring, c, s) && IsIdealRing(ring, s) && Can(s, AnswerPred(n)) && IsMember(s, n)
    requires IsDepth(k) && IsFilled(s, k, anew, done)
    ensures IsFilledAt(Do(s, AnswerPred(n)), k, anew + {n}, done, n)
  {
    var f, s' := s.nodes[n].stabilizing.target, Do(s, AnswerPred(n));
    assert NodeOk(ring, s, c, n) && IsMember(s, f) && f == Front(s, n);
    IdealIsStable(ring, c, s, AnswerPred(n));
    assert IsFilledAt(s, k, anew, done, n) && IsFilledAt(s, k, anew, done, f);
    WalkDependsOnFronts(s, s', n, s.nodes[n].table.succs, if n in done then Min(k + 1, SUCC_LIST_SIZE) else k);
    var sent := s.nodes[f].table.succs;
    if f in done { ShorterWalk(s, f, sent, Min(k + 1, SUCC_LIST_SIZE), k); }
    WalkDependsOnFronts(s, s', f, sent, k);
    var peers := PredAndList(s.nodes[f].table);
    assert peers != [] ==> peers[1..] == sent;
    assert NodeOk(ring, s, c, f) && Front(s, f) in ring;
  }

  /** Taking an answer gives a list that walks one step further than the answer did. */
  lemma TakePredIsFilled(ring: Ring, c: Id, s: State, n: Id, k: nat, anew: set<Id>, done: set<Id>)
    requires Inv(ring, c, s) && IsIdealRing(ring, s) && Can(s, TakePred(n)) && IsMember(s, n)
    requires IsDepth(k) && done <= anew && IsFilledAt(s, k, anew, done, n) && Refreshes(s, TakePred(n))
    ensures IsFilledAt(Do(s, TakePred(n)), k, anew, DoneAfter(s, TakePred(n), anew, done), n)
  {
    var s', node := Do(s, TakePred(n)), s.nodes[n];
    assert Front(s, n) in ring;
    IdealIsStable(ring, c, s, TakePred(n));
    var depth := if n in anew then k else k - 1;
    AnsweredWalk(s, node.table, n, node.stabilizing.peers, depth);
    WalkDependsOnFronts(s, s', n, s'.nodes[n].table.succs, Min(depth + 1, SUCC_LIST_SIZE));
  }

  /** Steps that neither answer nor take leave the node's list and answer as they are. */
  lemma OtherQuietStepIsFilled(ring: Ring, c: Id, s: State, step: Step, k: nat, anew: set<Id>, done: set<Id>)
    requires Inv(ring, c, s) && IsIdealRing(ring, s) && Can(s, step) && IsQuiet(step) && IsMember(s, step.n)
    requires !step.AnswerPred? && !Refreshes(s, step) && k > 0 && IsFilledAt(s, k, anew, done, step.n)
    ensures step.n in Do(s, step).nodes && IsFilledAt(Do(s, step), k, anew, done, step.n)
  {
    var n := step.n;
    IdealIsStable(ring, c, s, step);
    NobodyAdopts(ring, c, s, n);
    assert NodeOk(ring, s, c, n) && Front(s, n) in ring;
    UntouchedStaysFilled(s, Do(s, step), k, anew, done, n);
  }

  /** No quiet step lowers the depth of any list or answer. */
  lemma QuietStepKeepsFilled(ring: Ring, c: Id, s: State, step: Step, k: nat, anew: set<Id>, done: set<Id>)
    requires Inv(ring, c, s) && IsIdealRing(ring, s) && Can(s, step) && IsQuiet(step)
    requires IsDepth(k) && done <= anew && IsFilled(s, k, anew, done)
    ensures IsFilled(Do(s, step), k, AnsweredAfter(step, anew), DoneAfter(s, step, anew, done))
    ensures DoneAfter(s, step, anew, done) <= AnsweredAfter(step, anew)
  {
    var n, s' := step.n, Do(s, step);
    var anew', done' := AnsweredAfter(step, anew), DoneAfter(s, step, anew, done);
    IdealIsStable(ring, c, s, step);
    StepKeepsInv(ring, c, s, step);
    forall m | IsMember(s', m) ensures IsFilledAt(s', k, anew', done', m) {
      assert m in Members(s') && IsMember(s, m);
      assert IsFilledAt(s, k, anew, done, m);
      if m != n {
        UntouchedStaysFilled(s, s', k, anew, done, m);
      } else if step.AnswerPred? {
        AnswerPredIsFilled(ring, c, s, n, k, anew, done);
      } else if Refreshes(s, step) {
        TakePredIsFilled(ring, c, s, n, k, anew, done);
      } else {
        OtherQuietStepIsFilled(ring, c, s, step, k, anew, done);
      }
    }
  }

  /* ---------- Rounds ---------- */

  /** The nodes answered in the course of a run, besides those that were before. */
  function AnsweredBy(steps: seq<Step>, anew: set<Id>): set<Id> {
    if steps == [] then anew else AnsweredBy(steps[1..], AnsweredAfter(steps[0], anew))
  }

  /** The nodes that take, in the course of a run, an answer given since `anew` was empty. */
  function RenewedBy(s: State, steps: seq<Step>, anew: set<Id>): set<Id>
    requires CanRun(s, steps)
    decreases |steps|
  {
    if steps == [] then {}
    else DoneAfter(s, steps[0], anew, {}) + RenewedBy(Do(s, steps[0]), steps[1..], AnsweredAfter(steps[0], anew))
  }

  predicate AreQuiet(steps: seq<Step>) {
    forall step | step in steps :: IsQuiet(step)
  }

  lemma {:induction false} QuietRunFills(
    ring: Ring, c: Id, s: State, steps: seq<Step>, k: nat, anew: set<Id>, done: set<Id>)
    requires Inv(ring, c, s) && IsIdealRing(ring, s) && CanRun(s, steps) && AreQuiet(steps)
    requires IsDepth(k) && done <= anew && IsFilled(s, k, anew, done)
    ensures var s', done' := Run(s, steps), done + RenewedBy(s, steps, anew);
            && Inv(ring, c, s') && IsIdealRing(ring, s') && Members(s') == Members(s)
            && IsFilled(s', k, AnsweredBy(steps, anew), done') && done' <= AnsweredBy(steps, anew)
    decreases |steps|
  {
    if steps == [] {
      assert done + RenewedBy(s, steps, anew) == done;
    } else {
      var step, rest := steps[0], steps[1..];
      assert step in steps && forall r | r in rest :: r in steps;
      IdealIsStable(ring, c, s, step);
      QuietStepKeepsFilled(ring, c, s, step, k, anew, done);
      var anew', done' := AnsweredAfter(step, anew), DoneAfter(s, step, anew, done);
      QuietRunFills(ring, c, Do(s, step), rest, k, anew', done');
      assert done + RenewedBy(s, steps, anew) == done' + RenewedBy(Do(s, step), rest, anew');
    }
  }

  /** Every member's list is the clockwise walk for its first `k` entries. */
  ghost predicate AllWalk(s: State, k: nat) {
    forall n {:trigger Walks(s, n, s.nodes[n].table.succs, k)} | IsMember(s, n) ::
      Walks(s, n, s.nodes[n].table.succs, k)
  }

  /** In a round every member is answered and then takes an answer, in any order and among other quiet steps. */
  predicate IsRound(s: State, steps: seq<Step>) {
    CanRun(s, steps) && AreQuiet(steps) && forall n | n in s.nodes && IsMember(s, n) :: n in RenewedBy(s, steps, {})
  }

  /** A round lifts every list, and every answer on its way, by one entry. */
  lemma RoundLifts(ring: Ring, c: Id, s: State, steps: seq<Step>, k: nat)
    requires Inv(ring, c, s) && IsIdealRing(ring, s) && IsRound(s, steps)
    requires IsDepth(k) && IsFilled(s, k, {}, {})
    ensures var s', k' := Run(s, steps), Min(k + 1, SUCC_LIST_SIZE);
            && Inv(ring, c, s') && IsIdealRing(ring, s') && Members(s') == Members(s)
            && IsFilled(s', k', {}, {}) && AllWalk(s', k')
  {
    QuietRunFills(ring, c, s, steps, k, {}, {});
    var s', k' := Run(s, steps), Min(k + 1, SUCC_LIST_SIZE);
    var anew, done := AnsweredBy(steps, {}), {} + RenewedBy(s, steps, {});
    forall n | IsMember(s', n)
      ensures IsFilledAt(s', k', {}, {}, n) && Walks(s', n, s'.nodes[n].table.succs, k')
    {
      assert n in Members(s') && IsMember(s, n);
      assert IsFilledAt(s', k, anew, done, n);
      var stabilizing := s'.nodes[n].stabilizing;
      if stabilizing.GotPred? && stabilizing.peers != [] {
        ShorterWalk(s', Front(s', n), stabilizing.peers[1..], k, k' - 1);
      }
    }
  }

  predicate AreRounds(s: State, rounds: seq<seq<Step>>)
    decreases |rounds|
  {
    rounds == [] || (IsRound(s, rounds[0]) && AreRounds(Run(s, rounds[0]), rounds[1..]))
  }

  function RunRounds(s: State, rounds: seq<seq<Step>>): State
    requires AreRounds(s, rounds)
    decreases |rounds|
  {
    if rounds == [] then s else RunRounds(Run(s, rounds[0]), rounds[1..])
  }

  lemma {:induction false} RoundsLift(ring: Ring, c: Id, s: State, rounds: seq<seq<Step>>, k: nat)
    requires Inv(ring, c, s) && IsIdealRing(ring, s) && AreRounds(s, rounds)
    requires IsDepth(k) && IsFilled(s, k, {}, {}) && k + |rounds| >= SUCC_LIST_SIZE
    ensures AllWalk(RunRounds(s, rounds), SUCC_LIST_SIZE)
    decreases |rounds|
  {
    if rounds == [] {
      forall n | IsMember(s, n) ensures Walks(s, n, s.nodes[n].table.succs, SUCC_LIST_SIZE) {
        assert IsFilledAt(s, k, {}, {}, n);
      }
    } else {
      RoundLifts(ring, c, s, rounds[0], k);
      RoundsLift(ring, c, Run(s, rounds[0]), rounds[1..], Min(k + 1, SUCC_LIST_SIZE));
    }
  }

  /** First entries are successors by definition. */
  lemma AnyStateIsFilledToOne(ring: Ring, c: Id, s: State)
    requires Inv(ring, c, s)
    ensures IsFilled(s, 1, {}, {})
  {
    forall n | IsMember(s, n) ensures IsFilledAt(s, 1, {}, {}, n) {
      assert NodeOk(ring, s, c, n) && Front(s, n) in ring;
      var list := s.nodes[n].table.succs;
      assert Walks(s, list[0], list[1..], 0);
    }
  }

  /** Whatever padding and stale entries an ideal ring starts with, nine rounds replace them all by the true walk. */
  lemma PaddingDrainsAway(ring: Ring, c: Id, s: State, rounds: seq<seq<Step>>)
    requires Inv(ring, c, s) && IsIdealRing(ring, s) && AreRounds(s, rounds) && |rounds| >= SUCC_LIST_SIZE - 1
    ensures AllWalk(RunRounds(s, rounds), SUCC_LIST_SIZE)
  {
    AnyStateIsFilledToOne(ring, c, s);
    RoundsLift(ring, c, s, rounds, 1);
  }

  /** A joiner's late list may splice padding back in: whatever stands in its first nine entries comes next. */
  lemma SpliceBringsBack(s: State, n: Id, i: nat)
    requires Can(s, FinishJoin(n)) && i < |s.nodes[n].joining.peers| && i < SUCC_LIST_SIZE - 1
    ensures Do(s, FinishJoin(n)).nodes[n].table.succs[i + 1] == s.nodes[n].joining.peers[i]
  {
  }

  /* ---------- Lists taken over whole ---------- */

  lemma FrontedWalk(s: State, n: Id, x: Id, list: seq<Id>, k: nat)
    requires Front(s, n) == x && Walks(s, x, list, k)
    ensures Walks(s, n, Resized([x] + list), Min(k + 1, SUCC_LIST_SIZE))
  {
    var all, d := [x] + list, Min(k + 1, SUCC_LIST_SIZE);
    assert all[1..] == list;
    assert Walks(s, n, all, k + 1);
    ShorterWalk(s, n, all, k + 1, d);
    WalkLength(s, n, all, d);
    WalkOfSameEntries(s, n, all, Resized(all), d);
  }

  /** A node that adopts the closer node `x` gets a list that walks one step further than that of `x`. */
  lemma AdoptedListWalks(s: State, n: Id, k: nat)
    requires Can(s, AnswerSelf(n))
    requires var x := s.nodes[n].stabilizing.target; s.nodes[x].table.self == Some(x)
    ensures Can(Do(s, AnswerSelf(n)), TakeSelf(n))
    ensures var x, s' := s.nodes[n].stabilizing.target, Do(Do(s, AnswerSelf(n)), TakeSelf(n));
            && Front(s', n) == x
            && (Walks(s', x, s.nodes[x].table.succs, k) ==>
                  Walks(s', n, s'.nodes[n].table.succs, Min(k + 1, SUCC_LIST_SIZE)))
  {
    var x, s' := s.nodes[n].stabilizing.target, Do(Do(s, AnswerSelf(n)), TakeSelf(n));
    var list := s.nodes[x].table.succs;
    assert SelfAndList(s.nodes[x].table) == [x] + list;
    if Walks(s', x, list, k) { FrontedWalk(s', n, x, list, k); }
  }

  /** A node that has joined before `f` gets a list that walks one step further than that of `f`. */
  lemma JoinedListWalks(s: State, n: Id, k: nat)
    requires Can(s, AnswerList(n)) && s.nodes[n].table.succs != []
    requires s.nodes[n].table.succs[0] == s.nodes[n].joining.peer
    ensures Can(Do(s, AnswerList(n)), FinishJoin(n))
    ensures var f, s' := s.nodes[n].joining.peer, Do(Do(s, AnswerList(n)), FinishJoin(n));
            && Front(s', n) == f && s'.nodes[n].joining.Joined?
            && (Walks(s', f, s.nodes[f].table.succs, k) ==>
                  Walks(s', n, s'.nodes[n].table.succs, Min(k + 1, SUCC_LIST_SIZE)))
  {
    var f, s' := s.nodes[n].joining.peer, Do(Do(s, AnswerList(n)), FinishJoin(n));
    var list, d := s.nodes[f].table.succs, Min(k + 1, SUCC_LIST_SIZE);
    if Walks(s', f, list, k) {
      FrontedWalk(s', n, f, list, k);
      WalkLength(s', f, list, k);
      WalkOfSameEntries(s', n, Resized([f] + list), s'.nodes[n].table.succs, d);
    }
  }
}
