/** Successors and predecessors settle: every change brings them closer, so there are finitely many. */
module Convergence {
  import opened Identifiers
  import opened RoutingTables
  import opened Rings
  import opened RingInvariants

  /** How far node `n` points past itself: ids up to its successor, and ids from its predecessor up to itself. */
  ghost function Gap(ring: Ring, s: State, n: Id): nat
    requires n in ring
  {
    var pred := if n in s.nodes then s.nodes[n].table.pred else None;
    (if Front(s, n) in ring then Lap(ring, n, Front(s, n)) else 0) +
    (if pred.None? then |ring| + 1 else if pred.value in ring then Lap(ring, pred.value, n) else 0)
  }

  /** The sum of the gaps of the first `k` ids of the ring. */
  ghost function Disorder(ring: Ring, s: State, k: nat): nat
    requires k <= |ring|
  {
    if k == 0 then 0 else Disorder(ring, s, k - 1) + Gap(ring, s, ring[k - 1])
  }

  /** The step gave a node another successor or predecessor. */
  predicate Changes(s: State, step: Step)
    requires Can(s, step)
  {
    var s' := Do(s, step);
    step.n in s'.nodes &&
    (Front(s', step.n) != Front(s, step.n) || s'.nodes[step.n].table.pred != s.nodes[step.n].table.pred)
  }

  lemma {:induction false} DisorderFollowsOneGap(ring: Ring, s: State, s': State, n: Id, k: nat)
    requires IsRing(ring) && n in ring && k <= |ring|
    requires forall m {:trigger Gap(ring, s', m)} | m in ring && m != n :: Gap(ring, s', m) == Gap(ring, s, m)
    ensures Disorder(ring, s', k) + (if Pos(ring, n) < k then Gap(ring, s, n) else 0)
         == Disorder(ring, s, k) + (if Pos(ring, n) < k then Gap(ring, s', n) else 0)
  {
    if k > 0 {
      DisorderFollowsOneGap(ring, s, s', n, k - 1);
      PosOfElement(ring, k - 1);
      var m := ring[k - 1];
      assert m != n ==> Gap(ring, s', m) == Gap(ring, s, m);
    }
  }

  lemma DeliverShrinksGap(ring: Ring, c: Id, s: State, n: Id, from: Id)
    requires Inv(ring, c, s) && Can(s, Deliver(n, from))
    ensures var s' := Do(s, Deliver(n, from));
            && Front(s', n) == Front(s, n)
            && (s'.nodes[n].table.pred != s.nodes[n].table.pred ==> Gap(ring, s', n) < Gap(ring, s, n))
  {
    var pred := s.nodes[n].table.pred;
    assert NodeOk(ring, s, c, n) && Front(s, n) in ring;
    assert Claim(ring, s, (from, n).0, (from, n).1);
    if pred.Some? {
      BetweenComparesDistances(ring, pred.value, from, n);
      NearerPredecessor(ring, pred.value, from, n);
    }
  }

  lemma TakeSelfShrinksGap(ring: Ring, c: Id, s: State, n: Id)
    requires Inv(ring, c, s) && Can(s, TakeSelf(n))
    ensures var s' := Do(s, TakeSelf(n)); n in s'.nodes && n in ring && Gap(ring, s', n) < Gap(ring, s, n)
  {
    TakeSelfKeepsInv(ring, c, s, n);
    AdoptedFront(ring, c, s, n);
    assert Front(s, n) in ring;
    BetweenComparesDistances(ring, n, s.nodes[n].stabilizing.target, Front(s, n));
  }

  /** The gap of the node a step is about never grows, and shrinks whenever the step changes it. */
  lemma GapShrinks(ring: Ring, c: Id, s: State, step: Step)
    requires Inv(ring, c, s) && Can(s, step)
    ensures var s' := Do(s, step);
            && Gap(ring, s', step.n) <= Gap(ring, s, step.n)
            && (Changes(s, step) ==> Gap(ring, s', step.n) < Gap(ring, s, step.n))
  {
    var n := step.n;
    assert Front(s, n) in ring;
    match step
    case TakePred(_) => TakePredChanges(ring, c, s, n);
    case TakeSelf(_) => TakeSelfShrinksGap(ring, c, s, n);
    case Deliver(_, from) => DeliverShrinksGap(ring, c, s, n, from);
    case Link(_) =>
      LinkKeepsInv(ring, c, s, n);
      assert Front(Do(s, step), n) in ring;
    case _ =>
  }

  lemma NearerPredecessor(ring: Ring, p: Id, x: Id, n: Id)
    requires p in ring && x in ring && n in ring
    ensures p != x && Dist(ring, p, x) < Lap(ring, p, n) ==> Lap(ring, x, n) < Lap(ring, p, n)
  {
  }

  /** No step raises the disorder, joins included; every change of a successor or predecessor lowers it. */
  lemma StepSettles(ring: Ring, c: Id, s: State, step: Step)
    requires Inv(ring, c, s) && Can(s, step)
    ensures var before, after := Disorder(ring, s, |ring|), Disorder(ring, Do(s, step), |ring|);
            after <= before && (Changes(s, step) ==> after < before)
  {
    GapShrinks(ring, c, s, step);
    StepKeepsInv(ring, c, s, step);
    forall m | m in ring && m != step.n ensures Gap(ring, Do(s, step), m) == Gap(ring, s, m) {
      assert Front(Do(s, step), m) == Front(s, m);
    }
    DisorderFollowsOneGap(ring, s, Do(s, step), step.n, |ring|);
  }

  /** How many steps of a run change a successor or predecessor. */
  function ChangeCount(s: State, steps: seq<Step>): nat
    requires CanRun(s, steps)
    decreases |steps|
  {
    if steps == [] then 0
    else (if Changes(s, steps[0]) then 1 else 0) + ChangeCount(Do(s, steps[0]), steps[1..])
  }

  lemma {:induction false} ChangesAreBounded(ring: Ring, c: Id, s: State, steps: seq<Step>)
    requires Inv(ring, c, s) && CanRun(s, steps)
    ensures ChangeCount(s, steps) + Disorder(ring, Run(s, steps), |ring|) <= Disorder(ring, s, |ring|)
    decreases |steps|
  {
    if steps != [] {
      StepSettles(ring, c, s, steps[0]);
      StepKeepsInv(ring, c, s, steps[0]);
      ChangesAreBounded(ring, c, Do(s, steps[0]), steps[1..]);
    }
  }

  lemma StartGap(ring: Ring, c: Id, n: Id)
    requires IsRing(ring) && NO_ID !in ring && c in ring && n in ring
    ensures Gap(ring, Start(ring, c), n) == 2 * |ring| + 1
  {
    StartIsShaped(ring, c);
    assert Front(Start(ring, c), n) == n;
  }

  lemma OneTimeMore(k: nat, x: nat)
    requires k > 0
    ensures k * x == (k - 1) * x + x
  {
  }

  lemma {:induction false} StartDisorder(ring: Ring, c: Id, k: nat)
    requires IsRing(ring) && NO_ID !in ring && c in ring && k <= |ring|
    ensures Disorder(ring, Start(ring, c), k) == k * (2 * |ring| + 1)
  {
    if k > 0 {
      StartDisorder(ring, c, k - 1);
      StartGap(ring, c, ring[k - 1]);
      OneTimeMore(k, 2 * |ring| + 1);
    }
  }

  /** However long the network runs, pointers change at most `n * (2n + 1)` times among `n` nodes. */
  lemma FinitelyManyChanges(ring: Ring, c: Id, steps: seq<Step>)
    requires IsRing(ring) && NO_ID !in ring && c in ring && CanRun(Start(ring, c), steps)
    ensures ChangeCount(Start(ring, c), steps) <= |ring| * (2 * |ring| + 1)
  {
    StartIsOk(ring, c);
    StartDisorder(ring, c, |ring|);
    ChangesAreBounded(ring, c, Start(ring, c), steps);
  }
}
