/**
 * The maintenance step the ring's plain runs leave out: giving up a successor that answered with no peers.
 * When it costs a path, a run where it does, and runs in which it never does.
 */
module Dropping {
  import opened Identifiers
  import opened RoutingTables
  import opened Maintenance
  import opened Paths
  import opened Rings
  import opened RingInvariants

  /** `n` handles an empty answer: it drops its successor and notifies the next entry. */
  function Dropped(s: State, n: Id): State
    requires n in s.nodes
  {
    Notifying(s, n, OnPredReply(s.nodes[n].table, []).0)
  }

  /* ---------- Paths in any state, whether or not every node has a successor ---------- */

  ghost predicate Leads(ring: Ring, s: State, a: Id, b: Id)
    requires a in ring && b in ring
    decreases Dist(ring, a, b)
  {
    a == b || (Front(s, a) in ring && Dist(ring, Front(s, a), b) < Dist(ring, a, b) && Leads(ring, s, Front(s, a), b))
  }

  ghost predicate KeepsLeads(ring: Ring, s: State, s': State) {
    forall a, b {:trigger Leads(ring, s, a, b)} {:trigger Leads(ring, s', a, b)} | a in ring && b in ring ::
      Leads(ring, s, a, b) ==> Leads(ring, s', a, b)
  }

  lemma {:induction false} LeadsIsPath(ring: Ring, s: State, a: Id, b: Id)
    requires IsShaped(ring, s) && a in ring && b in ring
    ensures Leads(ring, s, a, b) <==> Path(ring, s, a, b)
    decreases Dist(ring, a, b)
  {
    assert Next(Successors(ring, s), a) == Front(s, a) && Front(s, a) in ring;
    if a != b && Dist(ring, Front(s, a), b) < Dist(ring, a, b) {
      LeadsIsPath(ring, s, Front(s, a), b);
    }
  }

  ghost predicate SameButFront(ring: Ring, s: State, s': State, n: Id) {
    n in ring && forall m {:trigger Front(s', m)} | m in ring && m != n :: Front(s', m) == Front(s, m)
  }

  /** A path that starts nearer to its end than `n` never passes `n`. */
  lemma {:induction false} LeadsAround(ring: Ring, s: State, s': State, n: Id, a: Id, b: Id)
    requires SameButFront(ring, s, s', n) && a in ring && b in ring
    requires Leads(ring, s', a, b) && Dist(ring, a, b) < Dist(ring, n, b)
    ensures Leads(ring, s, a, b)
    decreases Dist(ring, a, b)
  {
    if a != b {
      assert Front(s', a) == Front(s, a);
      LeadsAround(ring, s, s', n, Front(s, a), b);
    }
  }

  /** Nor does any path pass a node that is its own successor, or notice when a front stays as it was. */
  lemma {:induction false} LeadsAnyway(ring: Ring, s: State, s': State, n: Id, a: Id, b: Id)
    requires SameButFront(ring, s, s', n) && a in ring && b in ring
    requires Front(s, n) == n || Front(s', n) == Front(s, n)
    requires Leads(ring, s, a, b)
    ensures Leads(ring, s', a, b)
    decreases Dist(ring, a, b)
  {
    if a != b {
      assert a != n ==> Front(s', a) == Front(s, a);
      LeadsAnyway(ring, s, s', n, Front(s, a), b);
    }
  }

  lemma NearerIsBetween(ring: Ring, n: Id, y: Id, f: Id)
    requires IsRing(ring) && n in ring && y in ring && f in ring && y != f && Dist(ring, y, f) < Dist(ring, n, f)
    ensures Between(n, y, f)
  {
    BetweenComparesDistances(ring, n, y, f);
  }

  /* ---------- Exactly when a drop costs a path ---------- */

  /** The entry that takes over leads to the successor dropped, from before it. */
  ghost predicate LeadsBack(ring: Ring, s: State, n: Id, y: Id)
    requires IsShaped(ring, s) && n in s.nodes
  {
    var f := Front(s, n);
    y == f || (y in ring && f in ring && Between(n, y, f) && Path(ring, s, y, f))
  }

  lemma DroppedFronts(ring: Ring, s: State, n: Id)
    requires IsShaped(ring, s) && n in s.nodes
    ensures SameButFront(ring, s, Dropped(s, n), n) && Front(s, n) in ring
    ensures var succs := s.nodes[n].table.succs; Front(Dropped(s, n), n) == if |succs| > 1 then succs[1] else succs[0]
  {
    assert Front(s, n) in ring;
  }

  /** A new successor from which the old one cannot be reached costs the path to the old one. */
  lemma OldSuccessorIsLost(ring: Ring, s: State, s': State, n: Id)
    requires IsShaped(ring, s) && n in s.nodes && SameButFront(ring, s, s', n)
    requires Front(s, n) in ring && Front(s, n) != n
    requires !LeadsBack(ring, s, n, Front(s', n))
    ensures Leads(ring, s, n, Front(s, n)) && !Leads(ring, s', n, Front(s, n))
  {
    var f, y := Front(s, n), Front(s', n);
    assert Leads(ring, s, f, f);
    if Leads(ring, s', n, f) {
      LeadsAround(ring, s, s', n, y, f);
      LeadsIsPath(ring, s, y, f);
      NearerIsBetween(ring, n, y, f);
    }
  }

  lemma NewSuccessorLeadsBack(ring: Ring, s: State, s': State, n: Id, a: Id, b: Id)
    requires IsShaped(ring, s) && IsShaped(ring, s') && SameButFront(ring, s, s', n) && a in ring && b in ring
    requires Between(n, Front(s', n), Front(s, n)) && Front(s', n) in ring && Front(s, n) in ring
    requires Path(ring, s, Front(s', n), Front(s, n)) && Leads(ring, s, a, b)
    ensures Leads(ring, s', a, b)
  {
    AdoptingKeepsPaths(ring, s, s', n);
    LeadsIsPath(ring, s, a, b);
    LeadsIsPath(ring, s', a, b);
    assert Path(ring, s, a, b);
  }

  lemma DroppedIsShaped(ring: Ring, s: State, n: Id)
    requires IsShaped(ring, s) && n in s.nodes
    requires |s.nodes[n].table.succs| > 1 && s.nodes[n].table.succs[1] in ring
    ensures IsShaped(ring, Dropped(s, n))
  {
    assert Front(s, n) in ring && Front(Dropped(s, n), n) == s.nodes[n].table.succs[1];
    ShapeIsKept(ring, s, Dropped(s, n), n);
  }

  /**
   * Handling an empty answer costs no path exactly when the list has one entry only, the node was its own successor,
   * or the next entry is the successor again or leads to it from before.  Padding, say, does not.
   */
  lemma DropKeepsPathsIff(ring: Ring, s: State, n: Id)
    requires IsShaped(ring, s) && n in s.nodes
    ensures var succs := s.nodes[n].table.succs;
            KeepsLeads(ring, s, Dropped(s, n)) <==> |succs| == 1 || Front(s, n) == n || LeadsBack(ring, s, n, succs[1])
  {
    var s', succs, f := Dropped(s, n), s.nodes[n].table.succs, Front(s, n);
    DroppedFronts(ring, s, n);
    if |succs| == 1 || f == n || succs[1] == f {
      forall a, b | a in ring && b in ring && Leads(ring, s, a, b) ensures Leads(ring, s', a, b) {
        LeadsAnyway(ring, s, s', n, a, b);
      }
    } else if LeadsBack(ring, s, n, succs[1]) {
      DroppedIsShaped(ring, s, n);
      forall a, b | a in ring && b in ring && Leads(ring, s, a, b) ensures Leads(ring, s', a, b) {
        NewSuccessorLeadsBack(ring, s, s', n, a, b);
      }
    } else {
      OldSuccessorIsLost(ring, s, s', n);
    }
  }

  /** When padding takes over, the node leads to nobody any more. */
  lemma PaddingStrands(ring: Ring, s: State, n: Id, b: Id)
    requires IsShaped(ring, s) && n in s.nodes && b in ring && b != n
    requires |s.nodes[n].table.succs| > 1 && s.nodes[n].table.succs[1] == NO_ID
    ensures !Leads(ring, Dropped(s, n), n, b)
  {
    DroppedFronts(ring, s, n);
  }

  /* ---------- Harmless drops ---------- */

  /** The answer is empty, there is an entry to take over, and it leads back to the successor. */
  ghost predicate IsHarmless(ring: Ring, s: State, n: Id) {
    && IsShaped(ring, s) && n in s.nodes && s.nodes[n].stabilizing.GotPred? && s.nodes[n].stabilizing.peers == []
    && |s.nodes[n].table.succs| > 1 && LeadsBack(ring, s, n, s.nodes[n].table.succs[1])
  }

  lemma DropExtends(ring: Ring, c: Id, s: State, n: Id)
    requires Inv(ring, c, s) && IsHarmless(ring, s, n)
    ensures Extends(ring, s, Dropped(s, n), n) && Front(Dropped(s, n), n) == s.nodes[n].table.succs[1]
  {
    var s' := Dropped(s, n);
    DroppedFronts(ring, s, n);
    DroppedIsShaped(ring, s, n);
    if Front(s', n) == Front(s, n) {
      SameFrontsKeepPaths(ring, s, s');
    } else {
      AdoptingKeepsPaths(ring, s, s', n);
    }
  }

  /** The node that takes over is one like the old successor: a member, if `n` is. */
  lemma HeirIsMember(ring: Ring, c: Id, s: State, n: Id)
    requires Inv(ring, c, s) && IsHarmless(ring, s, n)
    ensures var y := s.nodes[n].table.succs[1]; if IsMember(s, n) then IsMember(s, y) else y == n
  {
    var y, f := s.nodes[n].table.succs[1], Front(s, n);
    assert NodeOk(ring, s, c, n) && y in s.nodes[n].table.succs && Known(s, n, y) && f in ring;
    BetweenFullCircle(n, f);
    if y != f && IsMember(s, y) { PathsStayInside(ring, c, s, y, f); }
  }

  lemma DropKeepsInv(ring: Ring, c: Id, s: State, n: Id)
    requires Inv(ring, c, s) && IsHarmless(ring, s, n)
    ensures Inv(ring, c, Dropped(s, n)) && Extends(ring, s, Dropped(s, n), n)
  {
    var s' := Dropped(s, n);
    assert NodeOk(ring, s, c, n);
    DropExtends(ring, c, s, n);
    HeirIsMember(ring, c, s, n);
    assert AllKnown(s, n, s.nodes[n].table.succs[1..]);
    JoiningStaysOk(ring, c, s, s', n, n);
    HeirsTableIsOk(ring, c, s, s', n);
    NoticeIsOk(ring, c, s', n);
    InvIsKept(ring, c, s, s', n);
  }

  lemma HeirsTableIsOk(ring: Ring, c: Id, s: State, s': State, n: Id)
    requires Extends(ring, s, s', n) && c in ring && TableOk(ring, s, c, n)
    requires s'.nodes[n].table.pred == s.nodes[n].table.pred && IsMember(s', n) == IsMember(s, n)
    requires AllKnown(s, n, s'.nodes[n].table.succs)
    requires if IsMember(s, n) then IsMember(s, Front(s', n)) else Front(s', n) == n
    ensures TableOk(ring, s', c, n)
  {
  }

  /* ---------- A run that ends with a harmful drop ---------- */

  /** Two nodes of which `a` is still as it started; `told` when `b` has notified itself. */
  function Pair(t: Table, stabilizing: Stabilizing, joining: Joining, told: bool): State {
    State(map["a" := Node(Table(Some("a"), None, ["a"]), Resting, Joined), "b" := Node(t, stabilizing, joining)],
          if told then {("b", "b")} else {})
  }

  /** `b` stabilizes on itself until its list holds it twice, then joins `a`, which has no predecessor to name. */
  const STEPS: seq<Step> := [
    AskPred("b"), AnswerPred("b"), TakePred("b"), Deliver("b", "b"), AskPred("b"), AnswerPred("b"), TakePred("b"),
    StartJoin("b", "a"), Search("b"), Link("b"), AskPred("b"), AnswerPred("b")]

  const LAST: nat := 12

  /** The state after the first `i` of these steps. */
  function Stage(i: nat): State
    requires i <= LAST
  {
    var unaware, alone := Table(Some("b"), None, ["b"]), Table(Some("b"), Some("b"), ["b"]);
    var twice, linked := alone.(succs := Resized(["b", "b"])), alone.(succs := Resized(["a", "b"]));
    match i
    case 0 => Pair(unaware, Resting, Outside, false)
    case 1 => Pair(unaware, AskedPred("b"), Outside, false)
    case 2 => Pair(unaware, GotPred("b", []), Outside, false)
    case 3 => Pair(unaware, Resting, Outside, true)
    case 4 => Pair(alone, Resting, Outside, true)
    case 5 => Pair(alone, AskedPred("b"), Outside, true)
    case 6 => Pair(alone, GotPred("b", ["b", "b"]), Outside, true)
    case 7 => Pair(twice, Resting, Outside, true)
    case 8 => Pair(twice, Resting, Searching("a"), true)
    case 9 => Pair(twice, Resting, Located("a"), true)
    case 10 => Pair(linked, Resting, Linked("a"), true)
    case 11 => Pair(linked, AskedPred("a"), Linked("a"), true)
    case _ => Pair(linked, GotPred("a", []), Linked("a"), true)
  }

  lemma StabilizesAlone(i: nat)
    requires i < 7
    ensures Becomes(Stage(i), STEPS[i], Stage(i + 1))
  {
    BetweenFullCircle("b", "b");
    assert ["b"] + ["b", "b"][1..] == ["b", "b"];
  }

  lemma JoinsAndAsks(i: nat)
    requires 7 <= i < LAST
    ensures Becomes(Stage(i), STEPS[i], Stage(i + 1))
  {
    BetweenFullCircle("a", "b");
    assert Resized(["b", "b"])[0 := "a"] == Resized(["a", "b"]);
  }

  lemma StageIsStep(i: nat)
    requires i < LAST
    ensures Becomes(Stage(i), STEPS[i], Stage(i + 1))
  {
    if i < 7 { StabilizesAlone(i); } else { JoinsAndAsks(i); }
  }

  lemma {:induction false} StagesAreRun(states: seq<State>, steps: seq<Step>, i: nat)
    requires |states| == |steps| + 1 && i <= |steps|
    requires forall j | 0 <= j < |steps| :: Becomes(states[j], steps[j], states[j + 1])
    ensures Gets(states[0], steps[..i], states[i])
  {
    if i > 0 {
      StagesAreRun(states, steps, i - 1);
      OneMoreStep(states[0], steps[..i - 1], states[i - 1], steps[i - 1], states[i]);
      assert steps[..i - 1] + [steps[i - 1]] == steps[..i];
    }
  }

  /** `b` has joined `a` and been answered with nothing, while it has itself for a second entry. */
  predicate IsAboutToDrop(s: State) {
    && "b" in s.nodes && s.nodes["b"].stabilizing == GotPred("a", []) && IsMember(s, "b")
    && s.nodes["b"].table.succs == Resized(["a", "b"])
  }

  lemma RunToDrop(s: State) returns (steps: seq<Step>, s': State)
    requires s == Stage(0)
    ensures Gets(s, steps, s') && IsAboutToDrop(s')
  {
    var states := seq(LAST + 1, i requires 0 <= i <= LAST => Stage(i));
    forall i | 0 <= i < LAST ensures Becomes(states[i], STEPS[i], states[i + 1]) {
      StageIsStep(i);
    }
    StagesAreRun(states, STEPS, LAST);
    steps, s' := STEPS[..LAST], states[LAST];
  }

  /** `b` would be left with itself for a successor. */
  lemma PairIsCut(ring: Ring, s: State)
    requires ring == ["a", "b"] && IsShaped(ring, s) && IsAboutToDrop(s)
    ensures Path(ring, s, "b", "a") && !Leads(ring, Dropped(s, "b"), "b", "a")
  {
    assert "a" == ring[0] && "b" == ring[1] && Front(s, "b") == "a" && Front(s, "b") in ring;
    DroppedFronts(ring, s, "b");
    BetweenFullCircle("b", "a");
    OldSuccessorIsLost(ring, s, Dropped(s, "b"), "b");
    LeadsIsPath(ring, s, "b", "a");
  }

  /** In a reachable state the answer `b` is about to take is empty, and taking it costs `b` its path to `a`. */
  lemma DroppingCutsOff() returns (ring: Ring, steps: seq<Step>)
    ensures ring == ["a", "b"] && IsRing(ring) && NO_ID !in ring && CanRun(Start(ring, "a"), steps)
    ensures var s := Run(Start(ring, "a"), steps);
            && IsShaped(ring, s) && IsAboutToDrop(s)
            && Path(ring, s, "b", "a") && !Leads(ring, Dropped(s, "b"), "b", "a")
  {
    ring := ["a", "b"];
    assert Less("a", "b") && "a" == ring[0] && "b" == ring[1];
    var s := Start(ring, "a");
    assert s == Stage(0);
    var s';
    steps, s' := RunToDrop(s);
    StartIsOk(ring, "a");
    RunKeepsPaths(ring, "a", s, steps);
    PairIsCut(ring, s');
  }
}
