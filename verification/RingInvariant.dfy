/** Every step of the ring keeps its invariant, and never loses a path. */
module RingInvariants {
  import opened Identifiers
  import opened RoutingTables
  import opened FindSuccessors
  import opened Maintenance
  import opened Paths
  import opened Rings

  /* ---------- How a step changes edges and paths ---------- */

  lemma SameFrontsKeepPaths(ring: Ring, s: State, s': State)
    requires IsShaped(ring, s) && IsShaped(ring, s')
    requires forall n {:trigger Front(s', n)} | n in ring :: Front(s, n) == Front(s', n)
    ensures Successors(ring, s') == Successors(ring, s) && KeepsPaths(ring, s, s')
  {
    var succ, succ' := Successors(ring, s), Successors(ring, s');
    forall n | n in succ' ensures n in succ && succ[n] == succ'[n] {
      assert Next(succ, n) == Front(s, n) == Front(s', n) == Next(succ', n);
    }
    assert succ' == succ;
  }

  lemma OneFrontChanges(ring: Ring, s: State, s': State, n: Id)
    requires IsShaped(ring, s) && IsShaped(ring, s') && n in ring
    requires forall m {:trigger Front(s', m)} | m in ring && m != n :: Front(s, m) == Front(s', m)
    ensures Successors(ring, s') == Successors(ring, s)[n := Front(s', n)]
  {
    var succ, succ' := Successors(ring, s)[n := Front(s', n)], Successors(ring, s');
    forall m | m in succ' ensures m in succ && succ[m] == succ'[m] {
      assert Next(succ', m) == Front(s', m);
      assert Next(Successors(ring, s), m) == Front(s, m);
    }
    assert succ' == succ;
  }

  /** A node adopting a predecessor of its successor loses no path. */
  lemma AdoptingKeepsPaths(ring: Ring, s: State, s': State, n: Id)
    requires IsShaped(ring, s) && IsShaped(ring, s') && n in ring
    requires forall m {:trigger Front(s', m)} | m in ring && m != n :: Front(s, m) == Front(s', m)
    requires Between(n, Front(s', n), Front(s, n)) && Path(ring, s, Front(s', n), Front(s, n))
    ensures KeepsPaths(ring, s, s')
  {
    OneFrontChanges(ring, s, s', n);
    BetweenComparesDistances(ring, n, Front(s', n), Front(s, n));
    forall a, b | a in ring && b in ring && Path(ring, s, a, b) ensures Path(ring, s', a, b) {
      ShorteningKeepsPaths(ring, Successors(ring, s), n, Front(s', n), a, b);
    }
  }

  /** A lone node taking any successor loses no path. */
  lemma LinkingKeepsAllPaths(ring: Ring, s: State, s': State, n: Id)
    requires IsShaped(ring, s) && IsShaped(ring, s') && n in ring
    requires forall m {:trigger Front(s', m)} | m in ring && m != n :: Front(s, m) == Front(s', m)
    requires Front(s, n) == n
    ensures KeepsPaths(ring, s, s')
  {
    OneFrontChanges(ring, s, s', n);
    forall a, b | a in ring && b in ring && Path(ring, s, a, b) ensures Path(ring, s', a, b) {
      LinkingKeepsPaths(ring, Successors(ring, s), n, Front(s', n), a, b);
    }
  }

  /* ---------- The frame: one node changes, no path is lost, no member leaves ---------- */

  ghost predicate OnlyChanges(s: State, s': State, n: Id) {
    && n in s.nodes && n in s'.nodes
    && s'.nodes == s.nodes[n := s'.nodes[n]]
    && (IsMember(s, n) ==> IsMember(s', n))
  }

  /** `s'` differs from `s` in node `n` only, is well shaped and has every path of `s`. */
  ghost predicate Extends(ring: Ring, s: State, s': State, n: Id) {
    IsShaped(ring, s) && IsShaped(ring, s') && OnlyChanges(s, s', n) && KeepsPaths(ring, s, s')
  }

  lemma TableStaysOk(ring: Ring, c: Id, s: State, s': State, n: Id, m: Id)
    requires Extends(ring, s, s', n) && c in ring && m in s.nodes && TableOk(ring, s, c, m)
    requires s'.nodes[m].table == s.nodes[m].table && (IsMember(s', m) ==> IsMember(s, m))
    ensures TableOk(ring, s', c, m)
  {
    assert Front(s', m) == Front(s, m);
  }

  lemma StabilizingStaysOk(ring: Ring, s: State, s': State, n: Id, m: Id)
    requires Extends(ring, s, s', n) && m in s.nodes && StabilizingOk(ring, s, m)
    requires s'.nodes[m].stabilizing == s.nodes[m].stabilizing && Front(s', m) == Front(s, m)
    ensures StabilizingOk(ring, s', m)
  {
  }

  lemma JoiningStaysOk(ring: Ring, c: Id, s: State, s': State, n: Id, m: Id)
    requires Extends(ring, s, s', n) && m in s.nodes && JoiningOk(s, c, m)
    requires s'.nodes[m].joining == s.nodes[m].joining
    ensures JoiningOk(s', c, m)
  {
  }

  lemma OtherNodeStaysOk(ring: Ring, c: Id, s: State, s': State, n: Id, m: Id)
    requires Extends(ring, s, s', n) && c in ring && m in s.nodes && m != n && NodeOk(ring, s, c, m)
    ensures NodeOk(ring, s', c, m)
  {
    assert Front(s', m) == Front(s, m);
    TableStaysOk(ring, c, s, s', n, m);
    StabilizingStaysOk(ring, s, s', n, m);
    JoiningStaysOk(ring, c, s, s', n, m);
  }

  lemma InvIsKept(ring: Ring, c: Id, s: State, s': State, n: Id)
    requires Inv(ring, c, s) && Extends(ring, s, s', n)
    requires NodeOk(ring, s', c, n)
    requires forall m | m in s'.notices && m !in s.notices :: Claim(ring, s', m.0, m.1)
    ensures Inv(ring, c, s')
  {
    forall m | m in s'.nodes ensures NodeOk(ring, s', c, m) {
      if m != n {
        assert NodeOk(ring, s, c, m);
        OtherNodeStaysOk(ring, c, s, s', n, m);
      }
    }
  }

  lemma ShapeIsKept(ring: Ring, s: State, s': State, n: Id)
    requires IsShaped(ring, s) && OnlyChanges(s, s', n)
    requires s'.nodes[n].table.self == Some(n) && 0 < |s'.nodes[n].table.succs| <= SUCC_LIST_SIZE
    requires Front(s', n) in ring
    ensures IsShaped(ring, s')
    ensures forall m {:trigger Front(s', m)} | m in ring && m != n :: Front(s, m) == Front(s', m)
  {
    forall m | m in s'.nodes
      ensures s'.nodes[m].table.self == Some(m) && 0 < |s'.nodes[m].table.succs| <= SUCC_LIST_SIZE
      ensures Front(s', m) in ring
    {
      assert m != n ==> Front(s, m) in ring;
    }
  }

  /** A step that leaves the successor alone. */
  lemma SameFrontExtends(ring: Ring, s: State, s': State, n: Id)
    requires IsShaped(ring, s) && OnlyChanges(s, s', n)
    requires s'.nodes[n].table.self == Some(n) && 0 < |s'.nodes[n].table.succs| <= SUCC_LIST_SIZE
    requires Front(s', n) == Front(s, n)
    ensures Extends(ring, s, s', n)
  {
    assert Front(s, n) in ring;
    ShapeIsKept(ring, s, s', n);
    SameFrontsKeepPaths(ring, s, s');
  }

  /* ---------- Stabilization steps ---------- */

  lemma AskPredKeepsInv(ring: Ring, c: Id, s: State, n: Id)
    requires Inv(ring, c, s) && Can(s, AskPred(n))
    ensures var s' := Do(s, AskPred(n)); Inv(ring, c, s') && Extends(ring, s, s', n)
  {
    var s' := Do(s, AskPred(n));
    assert NodeOk(ring, s, c, n);
    SameFrontExtends(ring, s, s', n);
    TableStaysOk(ring, c, s, s', n, n);
    JoiningStaysOk(ring, c, s, s', n, n);
    InvIsKept(ring, c, s, s', n);
  }

  /** What `n`'s successor answers is fit for `n`. */
  lemma PredAnswerIsOk(ring: Ring, c: Id, s: State, n: Id, f: Id)
    requires Inv(ring, c, s) && n in s.nodes && f in s.nodes && f == Front(s, n)
    ensures AllKnown(s, n, PredAndList(s.nodes[f].table))
    ensures |PredAndList(s.nodes[f].table)| != 1
    ensures s.nodes[f].table.pred.Some? ==> Claim(ring, s, s.nodes[f].table.pred.value, f)
  {
    assert NodeOk(ring, s, c, n) && NodeOk(ring, s, c, f) && Front(s, f) in ring;
  }

  lemma SelfAnswerIsOk(ring: Ring, c: Id, s: State, n: Id, x: Id)
    requires Inv(ring, c, s) && n in s.nodes && IsMember(s, x)
    ensures AllKnown(s, n, SelfAndList(s.nodes[x].table))
    ensures SelfAndList(s.nodes[x].table)[0] == x
  {
    assert NodeOk(ring, s, c, x);
    assert Front(s, x) in ring;
  }

  lemma AnswerPredKeepsInv(ring: Ring, c: Id, s: State, n: Id)
    requires Inv(ring, c, s) && Can(s, AnswerPred(n))
    ensures var s' := Do(s, AnswerPred(n)); Inv(ring, c, s') && Extends(ring, s, s', n)
  {
    var s' := Do(s, AnswerPred(n));
    var f := s.nodes[n].stabilizing.target;
    assert NodeOk(ring, s, c, n);
    PredAnswerIsOk(ring, c, s, n, f);
    SameFrontExtends(ring, s, s', n);
    TableStaysOk(ring, c, s, s', n, n);
    JoiningStaysOk(ring, c, s, s', n, n);
    InvIsKept(ring, c, s, s', n);
  }

  lemma AnswerSelfKeepsInv(ring: Ring, c: Id, s: State, n: Id)
    requires Inv(ring, c, s) && Can(s, AnswerSelf(n))
    ensures var s' := Do(s, AnswerSelf(n)); Inv(ring, c, s') && Extends(ring, s, s', n)
  {
    var s' := Do(s, AnswerSelf(n));
    var x := s.nodes[n].stabilizing.target;
    assert NodeOk(ring, s, c, n);
    BetweenFullCircle(n, Front(s, n));
    SelfAnswerIsOk(ring, c, s, n, x);
    SameFrontExtends(ring, s, s', n);
    TableStaysOk(ring, c, s, s', n, n);
    JoiningStaysOk(ring, c, s, s', n, n);
    InvIsKept(ring, c, s, s', n);
  }

  /* ---------- The new table of a stabilizing node ---------- */

  lemma ResizedIsKnown(s: State, n: Id, peers: seq<Id>)
    requires AllKnown(s, n, peers)
    ensures AllKnown(s, n, Resized(peers))
  {
  }

  /** The edge to its successor justifies the notification a node sends. */
  lemma NoticeIsOk(ring: Ring, c: Id, s: State, n: Id)
    requires IsShaped(ring, s) && c in ring && n in s.nodes && TableOk(ring, s, c, n)
    ensures Claim(ring, s, n, Front(s, n))
  {
    assert Front(s, n) in ring;
    assert Next(Successors(ring, s), n) == Front(s, n);
    assert Reaches(ring, Successors(ring, s), Front(s, n), Front(s, n));
  }

  /** A list made of the old successor and an answer's tail. */
  lemma AnsweredListIsOk(s: State, n: Id, t: Table, peers: seq<Id>)
    requires t.succs != [] && AllKnown(s, n, t.succs) && AllKnown(s, n, peers) && peers != [] && t.self.Some?
    ensures var t' := OnPredReply(t, peers).0;
            && t'.self == t.self && t'.pred == t.pred
            && |t'.succs| == SUCC_LIST_SIZE && t'.succs[0] == t.succs[0] && AllKnown(s, n, t'.succs)
  {
    var rest := if |peers| > 1 then peers[1..] else peers;
    assert forall p | p in [t.succs[0]] + rest :: p in t.succs || p in peers;
    ResizedIsKnown(s, n, [t.succs[0]] + rest);
  }

  lemma SameFrontTableIsOk(ring: Ring, c: Id, s: State, s': State, n: Id)
    requires Extends(ring, s, s', n) && c in ring && TableOk(ring, s, c, n)
    requires Front(s', n) == Front(s, n) && s'.nodes[n].table.pred == s.nodes[n].table.pred
    requires IsMember(s', n) ==> IsMember(s, n)
    requires AllKnown(s, n, s'.nodes[n].table.succs)
    ensures TableOk(ring, s', c, n)
  {
  }

  lemma AnswerDecides(t: Table, n: Id, peers: seq<Id>)
    requires t.self == Some(n) && 0 < |t.succs| <= SUCC_LIST_SIZE && (peers != [] || |t.succs| == 1)
    ensures var (t', reaction) := OnPredReply(t, peers);
            && t'.self == t.self && t'.pred == t.pred && 0 < |t'.succs| <= SUCC_LIST_SIZE && t'.succs[0] == t.succs[0]
            && (peers == [] ==> t' == t)
            && reaction == if peers != [] && Between(n, peers[0], t.succs[0]) then AsksCloserNode(peers[0])
                           else NotifiesSuccessor
  {
  }

  /** Taking the successor's answer changes the tail of the list and what is awaited next. */
  lemma TakePredChanges(ring: Ring, c: Id, s: State, n: Id)
    requires Inv(ring, c, s) && Can(s, TakePred(n))
    ensures var s', peers := Do(s, TakePred(n)), s.nodes[n].stabilizing.peers;
            && OnlyChanges(s, s', n) && s'.nodes[n].joining == s.nodes[n].joining
            && s'.nodes[n].table.self == Some(n) && s'.nodes[n].table.pred == s.nodes[n].table.pred
            && 0 < |s'.nodes[n].table.succs| <= SUCC_LIST_SIZE && Front(s', n) == Front(s, n)
            && AllKnown(s, n, s'.nodes[n].table.succs)
            && (s'.notices == s.notices || s'.notices == s.notices + {(n, Front(s', n))})
            && s'.nodes[n].stabilizing
               == if peers != [] && Between(n, peers[0], Front(s, n)) then AskedSelf(peers[0]) else Resting
  {
    assert NodeOk(ring, s, c, n) && Front(s, n) in ring;
    AnswerDecides(s.nodes[n].table, n, s.nodes[n].stabilizing.peers);
    if s.nodes[n].stabilizing.peers != [] { AnsweredListIsOk(s, n, s.nodes[n].table, s.nodes[n].stabilizing.peers); }
  }

  lemma TakePredKeepsInv(ring: Ring, c: Id, s: State, n: Id)
    requires Inv(ring, c, s) && Can(s, TakePred(n))
    ensures var s' := Do(s, TakePred(n)); Inv(ring, c, s') && Extends(ring, s, s', n) && Front(s', n) == Front(s, n)
  {
    var s' := Do(s, TakePred(n));
    TakePredChanges(ring, c, s, n);
    assert NodeOk(ring, s, c, n);
    SameFrontExtends(ring, s, s', n);
    SameFrontTableIsOk(ring, c, s, s', n);
    JoiningStaysOk(ring, c, s, s', n, n);
    NoticeIsOk(ring, c, s', n);
    InvIsKept(ring, c, s, s', n);
  }

  /** Paths lead from members to members only. */
  lemma {:induction false} PathsStayInside(ring: Ring, c: Id, s: State, a: Id, b: Id)
    requires Inv(ring, c, s) && a in ring && b in ring && IsMember(s, a) && Path(ring, s, a, b)
    ensures IsMember(s, b)
    decreases Dist(ring, a, b)
  {
    if a != b {
      assert NodeOk(ring, s, c, a);
      assert Next(Successors(ring, s), a) == Front(s, a);
      PathsStayInside(ring, c, s, Front(s, a), b);
    }
  }

  /** The front of an adopted list. */
  lemma AdoptedFront(ring: Ring, c: Id, s: State, n: Id)
    requires Inv(ring, c, s) && n in s.nodes && s.nodes[n].stabilizing.GotSelf?
    ensures var x := s.nodes[n].stabilizing.target;
            && Between(n, x, Front(s, n)) && Claim(ring, s, x, Front(s, n))
            && IsMember(s, n) && IsMember(s, x) && s.nodes[n].stabilizing.peers != []
            && Resized(s.nodes[n].stabilizing.peers)[0] == x
            && AllKnown(s, n, Resized(s.nodes[n].stabilizing.peers))
  {
    var x := s.nodes[n].stabilizing.target;
    assert NodeOk(ring, s, c, n);
    BetweenFullCircle(n, Front(s, n));
    ResizedIsKnown(s, n, s.nodes[n].stabilizing.peers);
    PathsStayInside(ring, c, s, x, Front(s, n));
  }

  lemma TakeSelfKeepsInv(ring: Ring, c: Id, s: State, n: Id)
    requires Inv(ring, c, s) && Can(s, TakeSelf(n))
    ensures var s' := Do(s, TakeSelf(n)); Inv(ring, c, s') && Extends(ring, s, s', n)
    ensures Front(Do(s, TakeSelf(n)), n) == s.nodes[n].stabilizing.target
  {
    var s' := Do(s, TakeSelf(n));
    AdoptedFront(ring, c, s, n);
    assert NodeOk(ring, s, c, n);
    ShapeIsKept(ring, s, s', n);
    AdoptingKeepsPaths(ring, s, s', n);
    JoiningStaysOk(ring, c, s, s', n, n);
    NoticeIsOk(ring, c, s', n);
    InvIsKept(ring, c, s, s', n);
  }

  lemma ClaimIsKept(ring: Ring, s: State, s': State, n: Id, x: Id, y: Id)
    requires Extends(ring, s, s', n) && Claim(ring, s, x, y)
    ensures Claim(ring, s', x, y)
  {
  }

  lemma OtherPredTableIsOk(ring: Ring, c: Id, s: State, s': State, n: Id)
    requires Extends(ring, s, s', n) && c in ring && TableOk(ring, s, c, n)
    requires s'.nodes[n].table.succs == s.nodes[n].table.succs && s'.nodes[n].joining == s.nodes[n].joining
    requires s'.nodes[n].table.pred.Some? ==> Claim(ring, s', s'.nodes[n].table.pred.value, n)
    ensures TableOk(ring, s', c, n)
  {
    assert Front(s', n) == Front(s, n) && Front(s, n) in ring;
  }

  /** Whoever notified a node may be its predecessor. */
  lemma NotifiedTableIsOk(ring: Ring, c: Id, s: State, s': State, n: Id, from: Id)
    requires Extends(ring, s, s', n) && c in ring && TableOk(ring, s, c, n) && Claim(ring, s, from, n)
    requires s'.nodes[n].table == Notified(s.nodes[n].table, from) && s'.nodes[n].joining == s.nodes[n].joining
    ensures TableOk(ring, s', c, n)
  {
    if s'.nodes[n].table.pred.Some? { ClaimIsKept(ring, s, s', n, s'.nodes[n].table.pred.value, n); }
    OtherPredTableIsOk(ring, c, s, s', n);
  }

  lemma DeliverKeepsInv(ring: Ring, c: Id, s: State, n: Id, from: Id)
    requires Inv(ring, c, s) && Can(s, Deliver(n, from))
    ensures var s' := Do(s, Deliver(n, from));
            Inv(ring, c, s') && Extends(ring, s, s', n) && Front(s', n) == Front(s, n)
  {
    var s' := Do(s, Deliver(n, from));
    assert NodeOk(ring, s, c, n) && Front(s, n) in ring;
    assert (from, n) in s.notices && Claim(ring, s, (from, n).0, (from, n).1);
    SameFrontExtends(ring, s, s', n);
    NotifiedTableIsOk(ring, c, s, s', n, from);
    StabilizingStaysOk(ring, s, s', n, n);
    JoiningStaysOk(ring, c, s, s', n, n);
    InvIsKept(ring, c, s, s', n);
  }

  /* ---------- Joining steps ---------- */

  lemma StartJoinKeepsInv(ring: Ring, c: Id, s: State, n: Id, host: Id)
    requires Inv(ring, c, s) && Can(s, StartJoin(n, host))
    ensures var s' := Do(s, StartJoin(n, host)); Inv(ring, c, s') && Extends(ring, s, s', n)
  {
    var s' := Do(s, StartJoin(n, host));
    assert NodeOk(ring, s, c, n);
    SameFrontExtends(ring, s, s', n);
    TableStaysOk(ring, c, s, s', n, n);
    StabilizingStaysOk(ring, s, s', n, n);
    InvIsKept(ring, c, s, s', n);
  }

  /** An edge that does not jump over `c`, taken by a node it passes over, does not jump over `c` there either. */
  lemma InsertedEdgeStopsBefore(ring: Ring, at: Id, n: Id, f: Id, c: Id)
    requires IsRing(ring) && at in ring && n in ring && f in ring && c in ring && n != c
    requires Between(at, n, f)
    requires at == c || Dist(ring, f, c) < Dist(ring, at, c)
    ensures f == c || Between(n, f, c)
    ensures Dist(ring, f, c) < Dist(ring, n, c)
  {
    BetweenComparesDistances(ring, at, n, f);
    BetweenComparesDistances(ring, n, f, c);
  }

  /** What a member answers to the lookup of a joining node. */
  lemma SearchedIsOk(ring: Ring, c: Id, s: State, n: Id, at: Id)
    requires Inv(ring, c, s) && n in s.nodes && !IsMember(s, n) && IsMember(s, at) && n != c
    ensures var t := s.nodes[at].table;
            if Find(t, n).Some? then
              var f := Find(t, n).value;
              IsMember(s, f) && f != n && (f == c || Between(n, f, c))
            else
              ClosestPreceding(t, n).Some? &&
              (ClosestPreceding(t, n).value == NO_ID || IsMember(s, ClosestPreceding(t, n).value))
  {
    var t := s.nodes[at].table;
    assert NodeOk(ring, s, c, at) && Front(s, at) in ring;
    assert Next(Successors(ring, s), at) == Front(s, at);
    RoutingMakesProgress(t, n);
    if Find(t, n).Some? {
      InsertedEdgeStopsBefore(ring, at, n, Front(s, at), c);
    } else {
      BetweenFullCircle(at, n);
    }
  }

  lemma SearchKeepsInv(ring: Ring, c: Id, s: State, n: Id)
    requires Inv(ring, c, s) && Can(s, Search(n))
    ensures var s' := Do(s, Search(n)); Inv(ring, c, s') && Extends(ring, s, s', n)
  {
    var s' := Do(s, Search(n));
    assert NodeOk(ring, s, c, n);
    SearchedIsOk(ring, c, s, n, s.nodes[n].joining.at);
    SameFrontExtends(ring, s, s', n);
    TableStaysOk(ring, c, s, s', n, n);
    StabilizingStaysOk(ring, s, s', n, n);
    InvIsKept(ring, c, s, s', n);
  }

  lemma LinkKeepsInv(ring: Ring, c: Id, s: State, n: Id)
    requires Inv(ring, c, s) && Can(s, Link(n))
    ensures var s' := Do(s, Link(n)); Inv(ring, c, s') && Extends(ring, s, s', n)
    ensures Front(s, n) == n && Front(Do(s, Link(n)), n) == s.nodes[n].joining.peer
  {
    var s' := Do(s, Link(n));
    var f := s.nodes[n].joining.peer;
    assert NodeOk(ring, s, c, n) && NodeOk(ring, s, c, f) && Path(ring, s, f, c);
    ShapeIsKept(ring, s, s', n);
    LinkingKeepsAllPaths(ring, s, s', n);
    LinkedNodeLeadsTo(ring, s', n, f, c);
    LinkedTableIsOk(ring, c, s, s', n, f);
    InvIsKept(ring, c, s, s', n);
  }

  lemma LinkedTableIsOk(ring: Ring, c: Id, s: State, s': State, n: Id, f: Id)
    requires Extends(ring, s, s', n) && c in ring && TableOk(ring, s, c, n) && IsMember(s, f)
    requires s'.nodes[n].table == WithSuccessor(s.nodes[n].table, f) && IsMember(s', n) && Path(ring, s', n, c)
    ensures TableOk(ring, s', c, n)
  {
    assert Front(s', n) == f && IsMember(s', f);
    var succs := s.nodes[n].table.succs;
    forall p | p in succs[0 := f] ensures Known(s', n, p) {
      assert p == f || (p in succs && Known(s, n, p));
    }
  }

  lemma LinkedNodeLeadsTo(ring: Ring, s: State, n: Id, f: Id, c: Id)
    requires IsShaped(ring, s) && n in ring && f in ring && c in ring && n != c && f != n
    requires Front(s, n) == f && Path(ring, s, f, c) && (f == c || Between(n, f, c))
    ensures Path(ring, s, n, c)
  {
    assert Next(Successors(ring, s), n) == f;
    BetweenComparesDistances(ring, n, f, c);
  }

  lemma AnswerListKeepsInv(ring: Ring, c: Id, s: State, n: Id)
    requires Inv(ring, c, s) && Can(s, AnswerList(n))
    ensures var s' := Do(s, AnswerList(n)); Inv(ring, c, s') && Extends(ring, s, s', n)
  {
    var s' := Do(s, AnswerList(n));
    assert NodeOk(ring, s, c, n);
    var t := s.nodes[s.nodes[n].joining.peer].table;
    SelfAnswerIsOk(ring, c, s, n, s.nodes[n].joining.peer);
    assert forall p | p in t.succs :: p in SelfAndList(t);
    SameFrontExtends(ring, s, s', n);
    TableStaysOk(ring, c, s, s', n, n);
    StabilizingStaysOk(ring, s, s', n, n);
    InvIsKept(ring, c, s, s', n);
  }

  lemma FinishJoinKeepsInv(ring: Ring, c: Id, s: State, n: Id)
    requires Inv(ring, c, s) && Can(s, FinishJoin(n))
    ensures var s' := Do(s, FinishJoin(n)); Inv(ring, c, s') && Extends(ring, s, s', n) && Front(s', n) == Front(s, n)
  {
    var s' := Do(s, FinishJoin(n));
    var t, peers := s.nodes[n].table, s.nodes[n].joining.peers;
    assert NodeOk(ring, s, c, n) && Front(s, n) in ring;
    assert AllKnown(s, n, [t.succs[0]] + peers + t.succs[1..]);
    ResizedIsKnown(s, n, [t.succs[0]] + peers + t.succs[1..]);
    SameFrontExtends(ring, s, s', n);
    SameFrontTableIsOk(ring, c, s, s', n);
    StabilizingStaysOk(ring, s, s', n, n);
    InvIsKept(ring, c, s, s', n);
  }

  /* ---------- All steps, all runs ---------- */

  /** Every step keeps the invariant and every path. */
  lemma StepKeepsInv(ring: Ring, c: Id, s: State, step: Step)
    requires Inv(ring, c, s) && Can(s, step)
    ensures Inv(ring, c, Do(s, step)) && Extends(ring, s, Do(s, step), step.n)
  {
    match step
    case AskPred(n) => AskPredKeepsInv(ring, c, s, n);
    case AnswerPred(n) => AnswerPredKeepsInv(ring, c, s, n);
    case TakePred(n) => TakePredKeepsInv(ring, c, s, n);
    case AnswerSelf(n) => AnswerSelfKeepsInv(ring, c, s, n);
    case TakeSelf(n) => TakeSelfKeepsInv(ring, c, s, n);
    case Deliver(n, from) => DeliverKeepsInv(ring, c, s, n, from);
    case StartJoin(n, host) => StartJoinKeepsInv(ring, c, s, n, host);
    case Search(n) => SearchKeepsInv(ring, c, s, n);
    case Link(n) => LinkKeepsInv(ring, c, s, n);
    case AnswerList(n) => AnswerListKeepsInv(ring, c, s, n);
    case FinishJoin(n) => FinishJoinKeepsInv(ring, c, s, n);
  }

  lemma StartIsShaped(ring: Ring, c: Id)
    requires IsRing(ring) && NO_ID !in ring && c in ring
    ensures IsShaped(ring, Start(ring, c))
    ensures forall n {:trigger Front(Start(ring, c), n)} | n in ring :: Front(Start(ring, c), n) == n
  {
    var s := Start(ring, c);
    forall n | n in ring ensures s.nodes[n].table == Table(Some(n), None, [n]) && Front(s, n) == n {}
  }

  lemma StartIsOk(ring: Ring, c: Id)
    requires IsRing(ring) && NO_ID !in ring && c in ring
    ensures Inv(ring, c, Start(ring, c))
  {
    var s := Start(ring, c);
    StartIsShaped(ring, c);
    forall n | n in s.nodes ensures NodeOk(ring, s, c, n) {
      assert s.nodes[n] == Node(Table(Some(n), None, [n]), Resting, if n == c then Joined else Outside);
      assert Front(s, n) == n && AllKnown(s, n, [n]);
    }
  }

  /** The state reached from `s` by a sequence of steps, as long as each is possible. */
  predicate CanRun(s: State, steps: seq<Step>)
    decreases |steps|
  {
    steps == [] || (Can(s, steps[0]) && CanRun(Do(s, steps[0]), steps[1..]))
  }

  function Run(s: State, steps: seq<Step>): State
    requires CanRun(s, steps)
    decreases |steps|
  {
    if steps == [] then s else Run(Do(s, steps[0]), steps[1..])
  }

  lemma {:induction false} RunOfBoth(s: State, first: seq<Step>, second: seq<Step>)
    requires CanRun(s, first) && CanRun(Run(s, first), second)
    ensures CanRun(s, first + second) && Run(s, first + second) == Run(Run(s, first), second)
    decreases |first|
  {
    if first == [] {
      assert first + second == second;
    } else {
      assert (first + second)[0] == first[0] && (first + second)[1..] == first[1..] + second;
      RunOfBoth(Do(s, first[0]), first[1..], second);
    }
  }

  /** One step leads from `s` to `s'`. */
  predicate Becomes(s: State, step: Step, s': State) {
    Can(s, step) && Do(s, step) == s'
  }

  predicate Gets(s: State, steps: seq<Step>, s': State) {
    CanRun(s, steps) && Run(s, steps) == s'
  }

  lemma {:induction false} OneMoreStep(s: State, steps: seq<Step>, s1: State, step: Step, s2: State)
    requires Gets(s, steps, s1) && Becomes(s1, step, s2)
    ensures Gets(s, steps + [step], s2)
    decreases |steps|
  {
    var more := steps + [step];
    if steps == [] {
      assert more[1..] == [];
    } else {
      assert more[0] == steps[0] && more[1..] == steps[1..] + [step];
      OneMoreStep(Do(s, steps[0]), steps[1..], s1, step, s2);
    }
  }

  lemma ThreeMoreSteps(
    s: State, steps: seq<Step>, s0: State, a: Step, s1: State, b: Step, s2: State, c: Step, s3: State)
    requires Gets(s, steps, s0) && Becomes(s0, a, s1) && Becomes(s1, b, s2) && Becomes(s2, c, s3)
    ensures Gets(s, steps + [a, b, c], s3)
  {
    OneMoreStep(s, steps, s0, a, s1);
    OneMoreStep(s, steps + [a], s1, b, s2);
    OneMoreStep(s, steps + [a] + [b], s2, c, s3);
    assert steps + [a] + [b] + [c] == steps + [a, b, c];
  }

  /** Nobody is cut off: whatever happens, a path that once existed exists for ever. */
  lemma {:induction false} RunKeepsPaths(ring: Ring, c: Id, s: State, steps: seq<Step>)
    requires Inv(ring, c, s) && CanRun(s, steps)
    ensures Inv(ring, c, Run(s, steps)) && KeepsPaths(ring, s, Run(s, steps))
    ensures forall n {:trigger IsMember(Run(s, steps), n)} | IsMember(s, n) :: IsMember(Run(s, steps), n)
    decreases |steps|
  {
    if steps != [] {
      StepKeepsInv(ring, c, s, steps[0]);
      RunKeepsPaths(ring, c, Do(s, steps[0]), steps[1..]);
      assert forall n | IsMember(s, n) :: IsMember(Do(s, steps[0]), n);
    }
  }

  /** In every reachable state each member leads to the creator, and no other member's edge jumps over it. */
  lemma NobodyJumpsOverCreator(ring: Ring, c: Id, steps: seq<Step>, n: Id)
    requires IsRing(ring) && NO_ID !in ring && c in ring && CanRun(Start(ring, c), steps)
    requires IsMember(Run(Start(ring, c), steps), n)
    ensures var s := Run(Start(ring, c), steps);
            && IsShaped(ring, s) && n in ring && Path(ring, s, n, c)
            && (n != c ==> Front(s, n) == c || Between(n, Front(s, n), c))
  {
    StartIsOk(ring, c);
    RunKeepsPaths(ring, c, Start(ring, c), steps);
    var s := Run(Start(ring, c), steps);
    assert NodeOk(ring, s, c, n) && Front(s, n) in ring;
    assert Next(Successors(ring, s), n) == Front(s, n);
    BetweenComparesDistances(ring, n, Front(s, n), c);
  }
}
