/** Runs in which successors are dropped harmlessly and predecessors forgotten: nobody is cut off, and they settle. */
module Moves {
  import opened Identifiers
  import opened RoutingTables
  import opened Rings
  import opened RingInvariants
  import opened Convergence
  import opened Dropping

  datatype Move =
    | Plain(step: Step)
    /** A node takes an empty answer. */
    | Drop(n: Id)
    /** A node's predecessor did not answer in time. */
    | Forget(n: Id)

  ghost predicate CanMove(ring: Ring, s: State, move: Move) {
    match move
    case Plain(step) => Can(s, step)
    case Drop(n) => IsHarmless(ring, s, n)
    case Forget(n) => n in s.nodes
  }

  function Forgotten(s: State, n: Id): State
    requires n in s.nodes
  {
    Updated(s, n, s.nodes[n].(table := s.nodes[n].table.(pred := None)))
  }

  ghost function DoMove(ring: Ring, s: State, move: Move): State
    requires CanMove(ring, s, move)
  {
    match move
    case Plain(step) => Do(s, step)
    case Drop(n) => Dropped(s, n)
    case Forget(n) => Forgotten(s, n)
  }

  function Mover(move: Move): Id {
    match move
    case Plain(step) => step.n
    case Drop(n) => n
    case Forget(n) => n
  }

  lemma ForgettingKeepsInv(ring: Ring, c: Id, s: State, n: Id)
    requires Inv(ring, c, s) && n in s.nodes
    ensures Inv(ring, c, Forgotten(s, n)) && Extends(ring, s, Forgotten(s, n), n)
    ensures Front(Forgotten(s, n), n) == Front(s, n)
  {
    var s' := Forgotten(s, n);
    assert NodeOk(ring, s, c, n) && Front(s, n) in ring;
    SameFrontExtends(ring, s, s', n);
    OtherPredTableIsOk(ring, c, s, s', n);
    StabilizingStaysOk(ring, s, s', n, n);
    JoiningStaysOk(ring, c, s, s', n, n);
    InvIsKept(ring, c, s, s', n);
  }

  lemma MoveKeepsInv(ring: Ring, c: Id, s: State, move: Move)
    requires Inv(ring, c, s) && CanMove(ring, s, move)
    ensures Inv(ring, c, DoMove(ring, s, move)) && Extends(ring, s, DoMove(ring, s, move), Mover(move))
  {
    match move
    case Plain(step) => StepKeepsInv(ring, c, s, step);
    case Drop(n) => DropKeepsInv(ring, c, s, n);
    case Forget(n) => ForgettingKeepsInv(ring, c, s, n);
  }

  ghost predicate CanMoves(ring: Ring, s: State, moves: seq<Move>)
    decreases |moves|
  {
    moves == [] || (CanMove(ring, s, moves[0]) && CanMoves(ring, DoMove(ring, s, moves[0]), moves[1..]))
  }

  ghost function DoMoves(ring: Ring, s: State, moves: seq<Move>): State
    requires CanMoves(ring, s, moves)
    decreases |moves|
  {
    if moves == [] then s else DoMoves(ring, DoMove(ring, s, moves[0]), moves[1..])
  }

  /** As long as every drop is harmless nobody is cut off, whatever predecessors are forgotten. */
  lemma {:induction false} MovesKeepPaths(ring: Ring, c: Id, s: State, moves: seq<Move>)
    requires Inv(ring, c, s) && CanMoves(ring, s, moves)
    ensures Inv(ring, c, DoMoves(ring, s, moves)) && KeepsPaths(ring, s, DoMoves(ring, s, moves))
    decreases |moves|
  {
    if moves != [] {
      MoveKeepsInv(ring, c, s, moves[0]);
      MovesKeepPaths(ring, c, DoMove(ring, s, moves[0]), moves[1..]);
    }
  }

  /* ---------- Successors settle ---------- */

  /** How far `n`'s successor is. */
  ghost function Reach(ring: Ring, s: State, n: Id): nat
    requires n in ring
  {
    if Front(s, n) in ring then Lap(ring, n, Front(s, n)) else 0
  }

  ghost function TotalReach(ring: Ring, s: State, k: nat): nat
    requires k <= |ring|
  {
    if k == 0 then 0 else TotalReach(ring, s, k - 1) + Reach(ring, s, ring[k - 1])
  }

  lemma {:induction false} TotalFollowsOneReach(ring: Ring, s: State, s': State, n: Id, k: nat)
    requires IsRing(ring) && n in ring && k <= |ring|
    requires forall m {:trigger Front(s', m)} | m in ring && m != n :: Front(s', m) == Front(s, m)
    ensures TotalReach(ring, s', k) + (if Pos(ring, n) < k then Reach(ring, s, n) else 0)
         == TotalReach(ring, s, k) + (if Pos(ring, n) < k then Reach(ring, s', n) else 0)
  {
    if k > 0 {
      TotalFollowsOneReach(ring, s, s', n, k - 1);
      PosOfElement(ring, k - 1);
      assert ring[k - 1] != n ==> Front(s', ring[k - 1]) == Front(s, ring[k - 1]);
    }
  }

  predicate MovesFront(s: State, s': State, n: Id) {
    Front(s', n) != Front(s, n)
  }

  lemma NearerFront(ring: Ring, s: State, s': State, n: Id)
    requires IsRing(ring) && n in ring && Front(s, n) in ring && Front(s', n) in ring
    requires Front(s', n) == Front(s, n) || Between(n, Front(s', n), Front(s, n))
    ensures Reach(ring, s', n) <= Reach(ring, s, n)
    ensures MovesFront(s, s', n) ==> Reach(ring, s', n) < Reach(ring, s, n)
  {
    BetweenComparesDistances(ring, n, Front(s', n), Front(s, n));
  }

  /** A plain step moves its node's successor nearer or not at all. */
  lemma StepMovesFrontNearer(ring: Ring, c: Id, s: State, step: Step)
    requires Inv(ring, c, s) && Can(s, step)
    ensures var s', n := Do(s, step), step.n; Front(s', n) == Front(s, n) || Between(n, Front(s', n), Front(s, n))
  {
    var n := step.n;
    match step
    case TakePred(_) => TakePredKeepsInv(ring, c, s, n);
    case TakeSelf(_) =>
      TakeSelfKeepsInv(ring, c, s, n);
      AdoptedFront(ring, c, s, n);
    case Link(_) =>
      LinkKeepsInv(ring, c, s, n);
      BetweenFullCircle(n, s.nodes[n].joining.peer);
    case FinishJoin(_) => FinishJoinKeepsInv(ring, c, s, n);
    case _ =>
  }

  lemma MoveShortensReach(ring: Ring, c: Id, s: State, move: Move)
    requires Inv(ring, c, s) && CanMove(ring, s, move)
    ensures var s', n := DoMove(ring, s, move), Mover(move);
            && n in ring && Reach(ring, s', n) <= Reach(ring, s, n)
            && (MovesFront(s, s', n) ==> Reach(ring, s', n) < Reach(ring, s, n))
  {
    var s', n := DoMove(ring, s, move), Mover(move);
    MoveKeepsInv(ring, c, s, move);
    assert n in ring && Front(s, n) in ring && Front(s', n) in ring;
    match move {
      case Plain(step) => StepMovesFrontNearer(ring, c, s, step);
      case Drop(_) => DropExtends(ring, c, s, n);
      case Forget(_) => ForgettingKeepsInv(ring, c, s, n);
    }
    NearerFront(ring, s, s', n);
  }

  lemma MoveSettles(ring: Ring, c: Id, s: State, move: Move)
    requires Inv(ring, c, s) && CanMove(ring, s, move)
    ensures var s' := DoMove(ring, s, move);
            && TotalReach(ring, s', |ring|) <= TotalReach(ring, s, |ring|)
            && (MovesFront(s, s', Mover(move)) ==> TotalReach(ring, s', |ring|) < TotalReach(ring, s, |ring|))
  {
    var s', n := DoMove(ring, s, move), Mover(move);
    MoveKeepsInv(ring, c, s, move);
    MoveShortensReach(ring, c, s, move);
    forall m | m in ring && m != n ensures Front(s', m) == Front(s, m) {}
    TotalFollowsOneReach(ring, s, s', n, |ring|);
  }

  /** How often a successor changes in a run. */
  ghost function FrontChanges(ring: Ring, s: State, moves: seq<Move>): nat
    requires CanMoves(ring, s, moves)
    decreases |moves|
  {
    if moves == [] then 0
    else
      var s' := DoMove(ring, s, moves[0]);
      (if MovesFront(s, s', Mover(moves[0])) then 1 else 0) + FrontChanges(ring, s', moves[1..])
  }

  lemma {:induction false} FrontChangesAreBounded(ring: Ring, c: Id, s: State, moves: seq<Move>)
    requires Inv(ring, c, s) && CanMoves(ring, s, moves)
    ensures FrontChanges(ring, s, moves) + TotalReach(ring, DoMoves(ring, s, moves), |ring|)
         <= TotalReach(ring, s, |ring|)
    decreases |moves|
  {
    if moves != [] {
      MoveSettles(ring, c, s, moves[0]);
      MoveKeepsInv(ring, c, s, moves[0]);
      FrontChangesAreBounded(ring, c, DoMove(ring, s, moves[0]), moves[1..]);
    }
  }

  lemma {:induction false} TotalReachIsSmall(ring: Ring, s: State, k: nat)
    requires k <= |ring|
    ensures TotalReach(ring, s, k) <= k * |ring|
  {
    if k > 0 {
      TotalReachIsSmall(ring, s, k - 1);
      OneTimeMore(k, |ring|);
    }
  }

  /** In any run with harmless drops and forgotten predecessors `n` nodes change successors at most `n * n` times. */
  lemma SuccessorsSettle(ring: Ring, c: Id, s: State, moves: seq<Move>)
    requires Inv(ring, c, s) && CanMoves(ring, s, moves)
    ensures FrontChanges(ring, s, moves) <= |ring| * |ring|
  {
    FrontChangesAreBounded(ring, c, s, moves);
    TotalReachIsSmall(ring, s, |ring|);
  }
}
