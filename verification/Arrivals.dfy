/** From the start everybody can join, one after the other, and end up on the ideal ring with every lookup right. */
module Arrivals {
  import opened Identifiers
  import opened RoutingTables
  import opened FindSuccessors
  import opened Rings
  import opened RingInvariants
  import opened IdealRings
  import opened SuccessorLists
  import opened Lookups
  import opened Sweeps
  import opened Progress

  /** Nobody outside the ring has done anything yet. */
  ghost predicate OthersAreNew(s: State) {
    forall m {:trigger IsMember(s, m)} | m in s.nodes && !IsMember(s, m) :: s.nodes[m] == NewNode(m)
  }

  function NewNode(m: Id): Node {
    Node(Table(Some(m), None, [m]), Resting, Outside)
  }

  ghost predicate IsWelcoming(ring: Ring, c: Id, s: State) {
    Inv(ring, c, s) && IsReady(s) && OthersAreNew(s)
  }

  /* ---------- One node joins ---------- */

  lemma {:induction false} Nearest(ring: Ring, members: set<Id>, n: Id) returns (h: Id)
    requires members != {} && n in ring && forall m | m in members :: m in ring
    ensures h in members && forall m | m in members :: Dist(ring, h, n) <= Dist(ring, m, n)
    decreases members
  {
    h :| h in members;
    if members != {h} {
      var other := Nearest(ring, members - {h}, n);
      if Dist(ring, other, n) <= Dist(ring, h, n) { h := other; }
    }
  }

  lemma NothingBetween(ring: Ring, h: Id, f: Id, n: Id)
    requires IsRing(ring) && h in ring && f in ring && n in ring && h != n && f != n
    requires Dist(ring, h, n) <= Dist(ring, f, n)
    ensures Between(h, n, f)
  {
    BetweenComparesDistances(ring, h, n, f);
    if h != f && Dist(ring, h, f) <= Dist(ring, h, n) {
      SamePlace(ring, h, f, n);
    }
  }

  /** Some member answers the lookup of a newcomer at once. */
  lemma HostFor(ring: Ring, c: Id, s: State, n: Id) returns (h: Id)
    requires Inv(ring, c, s) && n in ring && !IsMember(s, n)
    ensures IsMember(s, h) && Find(s.nodes[h].table, n) == Some(Front(s, h)) && IsMember(s, Front(s, h))
  {
    assert c in Members(s);
    h := Nearest(ring, Members(s), n);
    assert NodeOk(ring, s, c, h) && Front(s, h) in ring && Front(s, h) in Members(s);
    NothingBetween(ring, h, Front(s, h), n);
    RoutingMakesProgress(s.nodes[h].table, n);
  }

  /** `n` is joining or has joined, the others are ready or new. */
  ghost predicate IsJoiningAlone(ring: Ring, c: Id, s: State, n: Id) {
    && Inv(ring, c, s) && IsReadyBut(s, n) && n in s.nodes && s.nodes[n].stabilizing.Resting?
    && forall m {:trigger IsMember(s, m)} | m in s.nodes && m != n && !IsMember(s, m) :: s.nodes[m] == NewNode(m)
  }

  /** Only `n` differs. */
  predicate DiffersIn(s: State, s': State, n: Id) {
    n in s.nodes && n in s'.nodes && s'.nodes == s.nodes[n := s'.nodes[n]]
  }

  predicate IsJoinStep(step: Step) {
    step.StartJoin? || step.Search? || step.Link? || step.AnswerList? || step.FinishJoin?
  }

  lemma JoiningStep(ring: Ring, c: Id, s: State, step: Step)
    requires IsJoiningAlone(ring, c, s, step.n) && Can(s, step) && IsJoinStep(step)
    ensures IsJoiningAlone(ring, c, Do(s, step), step.n) && DiffersIn(s, Do(s, step), step.n)
  {
    var n, s' := step.n, Do(s, step);
    StepKeepsInv(ring, c, s, step);
    assert DiffersIn(s, s', n);
    forall m | IsMember(s', m) && m != n ensures CanBegin(s', m) {
      assert IsMember(s, m);
      OthersStayReady(s, step, m);
    }
    forall m | m in s'.nodes && m != n && !IsMember(s', m) ensures s'.nodes[m] == NewNode(m) {
      assert !IsMember(s, m);
    }
  }

  /** `h` knows the answer. */
  lemma SearchFinds(s: State, n: Id, h: Id)
    requires n in s.nodes && h in s.nodes && s.nodes[n].joining == Searching(h) && s.nodes[h].table.self.Some?
    requires Find(s.nodes[h].table, n) == Some(Front(s, h))
    ensures Can(s, Search(n)) && Do(s, Search(n)).nodes[n] == s.nodes[n].(joining := Located(Front(s, h)))
  {
  }

  lemma Searches(ring: Ring, c: Id, s: State, n: Id, h: Id) returns (s1: State, s2: State)
    requires IsJoiningAlone(ring, c, s, n) && s.nodes[n] == NewNode(n)
    requires IsMember(s, h) && Find(s.nodes[h].table, n) == Some(Front(s, h))
    ensures Becomes(s, StartJoin(n, h), s1) && Becomes(s1, Search(n), s2)
    ensures IsJoiningAlone(ring, c, s2, n) && DiffersIn(s, s2, n)
    ensures s2.nodes[n] == NewNode(n).(joining := Located(Front(s, h)))
  {
    s1 := Do(s, StartJoin(n, h));
    JoiningStep(ring, c, s, StartJoin(n, h));
    assert Front(s, h) in ring && s1.nodes[h] == s.nodes[h];
    SearchFinds(s1, n, h);
    s2 := Do(s1, Search(n));
    JoiningStep(ring, c, s1, Search(n));
  }

  /** `n` links in before `f`. */
  lemma LinksIn(ring: Ring, c: Id, s: State, n: Id, f: Id) returns (s1: State)
    requires IsJoiningAlone(ring, c, s, n) && s.nodes[n] == NewNode(n).(joining := Located(f))
    requires IsMember(s, f) && f != n
    ensures Becomes(s, Link(n), s1) && IsJoiningAlone(ring, c, s1, n) && DiffersIn(s, s1, n)
    ensures s1.nodes[n] == Node(Table(Some(n), None, [f]), Resting, Linked(f))
  {
    s1 := Do(s, Link(n));
    JoiningStep(ring, c, s, Link(n));
  }

  /** `n` takes the list of `f`. */
  lemma TakesList(ring: Ring, c: Id, s: State, n: Id, f: Id) returns (s1: State, s2: State)
    requires IsJoiningAlone(ring, c, s, n) && s.nodes[n] == Node(Table(Some(n), None, [f]), Resting, Linked(f))
    requires f in s.nodes && f != n && Pred(s, f).Some?
    ensures Becomes(s, AnswerList(n), s1) && Becomes(s1, FinishJoin(n), s2)
    ensures IsJoiningAlone(ring, c, s2, n) && DiffersIn(s, s2, n)
    ensures s2.nodes[n].joining.Joined? && CanBegin(s2, n)
  {
    s1 := Do(s, AnswerList(n));
    JoiningStep(ring, c, s, AnswerList(n));
    s2 := Do(s1, FinishJoin(n));
    JoiningStep(ring, c, s1, FinishJoin(n));
    assert Front(s2, n) == f && s2.nodes[f] == s.nodes[f];
  }

  /** A newcomer can join a welcoming ring, which stays welcoming. */
  lemma NodeCanJoin(ring: Ring, c: Id, s: State, n: Id) returns (steps: seq<Step>)
    requires IsWelcoming(ring, c, s) && n in ring && !IsMember(s, n)
    ensures CanRun(s, steps) && IsWelcoming(ring, c, Run(s, steps))
    ensures DiffersIn(s, Run(s, steps), n) && Run(s, steps).nodes[n].joining.Joined?
  {
    var h := HostFor(ring, c, s, n);
    assert s.nodes[n] == NewNode(n) && CanBegin(s, h);
    var s1, s2 := Searches(ring, c, s, n, h);
    var f := Front(s, h);
    assert s2.nodes[f] == s.nodes[f];
    var s3 := LinksIn(ring, c, s2, n, f);
    assert s3.nodes[f] == s.nodes[f];
    var s4, s5 := TakesList(ring, c, s3, n, f);
    assert Gets(s, [], s);
    OneMoreStep(s, [], s, StartJoin(n, h), s1);
    OneMoreStep(s, [] + [StartJoin(n, h)], s1, Search(n), s2);
    steps := [] + [StartJoin(n, h)] + [Search(n)];
    ThreeMoreSteps(s, steps, s2, Link(n), s3, AnswerList(n), s4, FinishJoin(n), s5);
    steps := steps + [Link(n), AnswerList(n), FinishJoin(n)];
    JoinedRingIsWelcoming(ring, c, s5, n);
  }

  lemma JoinedRingIsWelcoming(ring: Ring, c: Id, s: State, n: Id)
    requires IsJoiningAlone(ring, c, s, n) && IsMember(s, n) && CanBegin(s, n)
    ensures IsWelcoming(ring, c, s)
  {
  }

  /* ---------- Everybody joins ---------- */

  ghost function Newcomers(s: State): set<Id> {
    set m | m in s.nodes && !IsMember(s, m)
  }

  lemma SettlingIsWelcoming(ring: Ring, c: Id, s: State, steps: seq<Step>)
    requires IsWelcoming(ring, c, s) && CanRun(s, steps) && AreQuiet(steps) && AreByMembers(s, steps)
    requires IsReady(Run(s, steps))
    ensures IsWelcoming(ring, c, Run(s, steps)) && Newcomers(Run(s, steps)) == Newcomers(s)
  {
    var s' := Run(s, steps);
    RunKeepsPaths(ring, c, s, steps);
    MembersLeaveOthersAlone(s, steps);
    forall m | m in s'.nodes && !IsMember(s', m) ensures s'.nodes[m] == NewNode(m) {
      assert m in ring && m in s.nodes && !IsMember(s, m);
    }
    assert forall m :: m in s'.nodes <==> m in ring;
    assert forall m :: m in s.nodes <==> m in ring;
  }

  /** One after the other all newcomers can join, and the ring settle. */
  lemma {:induction false} AllCanJoin(ring: Ring, c: Id, s: State) returns (steps: seq<Step>)
    requires IsWelcoming(ring, c, s)
    ensures CanRun(s, steps) && IsWelcoming(ring, c, Run(s, steps))
    ensures Newcomers(Run(s, steps)) == {} && IsIdealRing(ring, Run(s, steps))
    decreases Newcomers(s)
  {
    if Newcomers(s) == {} {
      steps := IdealRingIsReachable(ring, c, s);
      SettlingIsWelcoming(ring, c, s, steps);
    } else {
      var n :| n in Newcomers(s);
      var join := NodeCanJoin(ring, c, s, n);
      assert forall m | m in Newcomers(Run(s, join)) :: m != n && m in Newcomers(s);
      var rest := AllCanJoin(ring, c, Run(s, join));
      RunOfBoth(s, join, rest);
      steps := join + rest;
    }
  }

  /* ---------- From the start ---------- */

  /** The creator stabilizes on itself, and so comes to know a predecessor. */
  lemma CreatorBegins(ring: Ring, c: Id) returns (steps: seq<Step>)
    requires IsRing(ring) && NO_ID !in ring && c in ring
    ensures CanRun(Start(ring, c), steps) && IsWelcoming(ring, c, Run(Start(ring, c), steps))
  {
    var s := Start(ring, c);
    StartIsOk(ring, c);
    var t := Table(Some(c), None, [c]);
    assert s.nodes[c] == Node(t, Resting, Joined) && Front(s, c) == c;
    var s1 := Updated(s, c, Node(t, AskedPred(c), Joined));
    var s2 := Updated(s, c, Node(t, GotPred(c, []), Joined));
    var s3 := s.(notices := {(c, c)});
    var s4 := Updated(s3, c, Node(t.(pred := Some(c)), Resting, Joined));
    assert s3.nodes == s2.nodes[c := Node(t, Resting, Joined)];
    assert Gets(s, [], s);
    ThreeMoreSteps(s, [], s, AskPred(c), s1, AnswerPred(c), s2, TakePred(c), s3);
    steps := [] + [AskPred(c), AnswerPred(c), TakePred(c)];
    OneMoreStep(s, steps, s3, Deliver(c, c), s4);
    steps := steps + [Deliver(c, c)];
    RunKeepsPaths(ring, c, s, steps);
    assert CanBegin(s4, c);
  }

  lemma NoNewcomersLeft(ring: Ring, s: State)
    requires IsShaped(ring, s) && Newcomers(s) == {}
    ensures Members(s) == set n | n in ring
  {
    forall n | n in ring ensures IsMember(s, n) {
      assert n !in Newcomers(s);
    }
  }

  /** From the start some run makes all nodes members of one ideal ring. */
  lemma EverybodyCanJoin(ring: Ring, c: Id) returns (steps: seq<Step>)
    requires IsRing(ring) && NO_ID !in ring && c in ring
    ensures CanRun(Start(ring, c), steps)
    ensures var s := Run(Start(ring, c), steps);
            IsWelcoming(ring, c, s) && IsIdealRing(ring, s) && Members(s) == set n | n in ring
  {
    var first := CreatorBegins(ring, c);
    var rest := AllCanJoin(ring, c, Run(Start(ring, c), first));
    RunOfBoth(Start(ring, c), first, rest);
    steps := first + rest;
    NoNewcomersLeft(ring, Run(Start(ring, c), steps));
  }

  /** And nine sweeps later every node answers every lookup rightly. */
  lemma EveryLookupCanBeRight(ring: Ring, c: Id) returns (steps: seq<Step>, sweeps: seq<seq<Step>>)
    requires IsRing(ring) && NO_ID !in ring && c in ring
    ensures CanRun(Start(ring, c), steps) && AreSweeps(Run(Start(ring, c), steps), sweeps)
    ensures var s := RunSweeps(Run(Start(ring, c), steps), sweeps);
            AnswersRightly(ring, s) && Members(s) == set n | n in ring
  {
    steps := EverybodyCanJoin(ring, c);
    sweeps := SweepsArePossible(ring, c, Run(Start(ring, c), steps), SUCC_LIST_SIZE - 1);
    SweptRingAnswersRightly(ring, c, Run(Start(ring, c), steps), sweeps);
  }
}
