/** Timeouts over the tree of messages and the sub-messages they depend on. */
module MessageTrees {
  import opened Messages

  datatype Dependency = Dependency(message: Tree, essential: bool)

  /** `marksFailure`: the message type's `handle_failed` sets the state to FAILED (lookups and queries do not). */
  datatype Tree = Tree(
    done: bool, state: MessageState, deadline: nat, marksFailure: bool, dependencies: seq<Dependency>)

  predicate IsFailure(s: MessageState) {
    s == FAILED || s == TIMEDOUT
  }

  function MarkFailed(t: Tree, otherwise: MessageState): Tree {
    t.(done := true, state := if t.marksFailure then FAILED else otherwise)
  }

  /** Check a message: the tree afterwards and the verdict. */
  function Check(t: Tree, now: nat): (Tree, MessageState)
    decreases t, 1
  {
    if t.done then (t, t.state)
    else if now > t.deadline then
      var t' := MarkFailed(t, TIMEDOUT);
      (t', t'.state)
    else
      var (deps, failed) := CheckAll(t.dependencies, now);
      if failed then (MarkFailed(t.(dependencies := deps), t.state), TIMEDOUT)
      else (t.(dependencies := deps), VALID)
  }

  /** Check a dependency; does its failure fail the message that depends on it? */
  function CheckOne(d: Dependency, now: nat): (Dependency, bool)
    decreases d, 2
  {
    var (t, verdict) := Check(d.message, now);
    (d.(message := t), IsFailure(verdict) && d.essential)
  }

  /** `any_of` over the dependencies: those behind the first essential failure are not looked at. */
  function CheckAll(deps: seq<Dependency>, now: nat): (seq<Dependency>, bool)
    decreases deps, 0
  {
    if deps == [] then ([], false)
    else
      var (first, failed) := CheckOne(deps[0], now);
      if failed then ([first] + deps[1..], true)
      else
        var (rest, failedLater) := CheckAll(deps[1..], now);
        ([first] + rest, failedLater)
  }

  /** A chain of essential dependencies through unfinished messages down to an expired or failed one. */
  predicate IsDoom(t: Tree, now: nat, path: seq<nat>)
    decreases |path|
  {
    if path == [] then if t.done then IsFailure(t.state) else now > t.deadline
    else
      && !t.done && path[0] < |t.dependencies| && t.dependencies[path[0]].essential
      && IsDoom(t.dependencies[path[0]].message, now, path[1..])
  }

  ghost predicate HasDoom(t: Tree, now: nat) {
    exists path: seq<nat> :: IsDoom(t, now, path)
  }

  ghost predicate IsDoomed(d: Dependency, now: nat) {
    d.essential && HasDoom(d.message, now)
  }

  lemma DoomBegins(t: Tree, now: nat, i: nat)
    requires !t.done && i < |t.dependencies| && IsDoomed(t.dependencies[i], now)
    ensures HasDoom(t, now)
  {
    var rest: seq<nat> :| IsDoom(t.dependencies[i].message, now, rest);
    var path := [i] + rest;
    assert path[1..] == rest;
    assert IsDoom(t, now, path);
  }

  lemma DoomContinues(t: Tree, now: nat, path: seq<nat>)
    requires IsDoom(t, now, path) && path != []
    ensures path[0] < |t.dependencies| && IsDoomed(t.dependencies[path[0]], now)
  {
  }

  /** The verdict is a failure exactly when such a chain exists, wherever the scan stopped. */
  lemma {:induction false} FailsIffDoomed(t: Tree, now: nat)
    ensures IsFailure(Check(t, now).1) <==> HasDoom(t, now)
    decreases t, 1
  {
    if t.done || now > t.deadline {
      var end: seq<nat> := [];
      assert IsFailure(Check(t, now).1) <==> IsDoom(t, now, end);
      forall path: seq<nat> | IsDoom(t, now, path) ensures IsDoom(t, now, end) {}
    } else {
      AnyFailsIffDoomed(t.dependencies, now);
      if i :| 0 <= i < |t.dependencies| && IsDoomed(t.dependencies[i], now) {
        DoomBegins(t, now, i);
      }
      forall path: seq<nat> | IsDoom(t, now, path)
        ensures path != [] && path[0] < |t.dependencies| && IsDoomed(t.dependencies[path[0]], now)
      {
        DoomContinues(t, now, path);
      }
    }
  }

  lemma {:induction false} OneFailsIffDoomed(d: Dependency, now: nat)
    ensures CheckOne(d, now).1 <==> IsDoomed(d, now)
    decreases d, 2
  {
    FailsIffDoomed(d.message, now);
  }

  lemma {:induction false} AnyFailsIffDoomed(deps: seq<Dependency>, now: nat)
    ensures CheckAll(deps, now).1 <==> exists i :: 0 <= i < |deps| && IsDoomed(deps[i], now)
    decreases deps, 0
  {
    if deps != [] {
      OneFailsIffDoomed(deps[0], now);
      AnyFailsIffDoomed(deps[1..], now);
      if i :| 0 <= i < |deps| && IsDoomed(deps[i], now) && i > 0 {
        assert deps[1..][i - 1] == deps[i];
      }
      forall i | 0 <= i < |deps[1..]| && IsDoomed(deps[1..][i], now) ensures IsDoomed(deps[i + 1], now) {}
    }
  }

  /** A failed verdict is given again on the next check exactly by messages that marked it, or expired themselves. */
  lemma VerdictSticks(t: Tree, now: nat, later: nat)
    requires IsFailure(Check(t, now).1)
    ensures IsFailure(Check(Check(t, now).0, later).1) <==>
            t.done || t.marksFailure || now > t.deadline || IsFailure(t.state)
  {
  }

  /** After a check a message is done exactly if it was before or was doomed: checking spares the rest. */
  lemma DoneIffDoomed(t: Tree, now: nat)
    ensures Check(t, now).0.done <==> t.done || HasDoom(t, now)
  {
    FailsIffDoomed(t, now);
  }

  /** What a check leaves of the message itself. */
  lemma CheckedMessage(t: Tree, now: nat)
    ensures var z, verdict := Check(t, now).0, Check(t, now).1;
            && z.deadline == t.deadline && z.marksFailure == t.marksFailure && |z.dependencies| == |t.dependencies|
            && (t.done ==> z == t && verdict == t.state)
            && (!t.done && HasDoom(t, now) ==>
                  z.state == if t.marksFailure then FAILED else if now > t.deadline then TIMEDOUT else t.state)
            && (!t.done && !HasDoom(t, now) ==> z.state == t.state && verdict == VALID)
            && (!t.done && now > t.deadline ==> z.dependencies == t.dependencies && verdict == z.state)
            && (!t.done && now <= t.deadline && HasDoom(t, now) ==> verdict == TIMEDOUT)
  {
    FailsIffDoomed(t, now);
    CheckedDependencies(t.dependencies, now, 0);
  }

  /** A scan checks each dependency up to the first essential one that is doomed, and none behind it. */
  lemma {:induction false} CheckedDependencies(deps: seq<Dependency>, now: nat, i: nat)
    ensures var z := CheckAll(deps, now).0;
            && |z| == |deps|
            && (i < |deps| ==>
                  z[i] == if exists j :: 0 <= j < i && IsDoomed(deps[j], now) then deps[i]
                          else deps[i].(message := Check(deps[i].message, now).0))
    decreases |deps|
  {
    if deps != [] {
      var rest := deps[1..];
      OneFailsIffDoomed(deps[0], now);
      CheckedDependencies(rest, now, if i > 0 then i - 1 else 0);
      if i > 0 {
        if j :| 0 <= j < i && j < |deps| && IsDoomed(deps[j], now) && j > 0 { assert IsDoomed(rest[j - 1], now); }
        if j :| 0 <= j < i - 1 && j < |rest| && IsDoomed(rest[j], now) { assert IsDoomed(deps[j + 1], now); }
      }
    }
  }

  /** `checked` is what a scan has made of the first dependencies of `was`. */
  ghost predicate IsScanned(was: seq<Dependency>, now: nat, checked: seq<Dependency>, failed: bool) {
    && |checked| <= |was|
    && CheckAll(was, now).1 == (failed || CheckAll(was[|checked|..], now).1)
    && CheckAll(was, now).0 == checked + if failed then was[|checked|..] else CheckAll(was[|checked|..], now).0
  }

  lemma ScanBegins(was: seq<Dependency>, now: nat)
    ensures IsScanned(was, now, [], false)
  {
    assert was[0..] == was && [] + CheckAll(was, now).0 == CheckAll(was, now).0;
  }

  lemma ScanAdvances(was: seq<Dependency>, now: nat, checked: seq<Dependency>)
    requires IsScanned(was, now, checked, false) && |checked| < |was|
    ensures var (d, failed) := CheckOne(was[|checked|], now); IsScanned(was, now, checked + [d], failed)
  {
    var i := |checked|;
    var (d, failed) := CheckOne(was[i], now);
    assert was[i..] == [was[i]] + was[i + 1..];
    var rest := if failed then was[i + 1..] else CheckAll(was[i + 1..], now).0;
    assert checked + ([d] + rest) == checked + [d] + rest;
  }

  /* ---------- The message objects ---------- */

  class Message {
    var isDone: bool
    var state: MessageState
    var timePoint: nat
    const marksFailure: bool
    var dependencies: seq<Message>
    var essential: seq<bool>
    ghost var model: Tree
    ghost var Repr: set<object>

    /** The dependencies are valid and share nothing with each other or with this message. */
    ghost predicate OwnsDependencies()
      reads this, Repr
      decreases Repr, 0
    {
      && this in Repr && |essential| == |dependencies|
      && (forall i {:trigger dependencies[i]} | 0 <= i < |dependencies| ::
            && dependencies[i] in Repr && dependencies[i].Repr < Repr
            && this !in dependencies[i].Repr && dependencies[i].Valid())
      && (forall i, j {:trigger dependencies[i], dependencies[j]} | 0 <= i < j < |dependencies| ::
            dependencies[i].Repr !! dependencies[j].Repr)
    }

    ghost predicate Valid()
      reads this, Repr
      decreases Repr, 1
      ensures Valid() ==> this in Repr
    {
      && OwnsDependencies() && |model.dependencies| == |dependencies|
      && model == Tree(isDone, state, timePoint, marksFailure, model.dependencies)
      && (forall i {:trigger dependencies[i]} | 0 <= i < |dependencies| ::
            model.dependencies[i] == Dependency(dependencies[i].model, essential[i]))
    }

    constructor (now: nat, marksFailure: bool)
      ensures Valid() && fresh(Repr) && model == Tree(false, VALID, now + DURATION, marksFailure, [])
    {
      this.marksFailure := marksFailure;
      isDone, state, timePoint, dependencies, essential := false, VALID, now + DURATION, [], [];
      model := Tree(false, VALID, now + DURATION, marksFailure, []);
      Repr := {this};
    }

    /** A message starts a sub-message and waits for it. */
    method DependOn(m: Message, isEssential: bool)
      requires Valid() && m.Valid() && Repr !! m.Repr
      modifies this
      ensures Valid() && Repr == old(Repr) + m.Repr
      ensures model == old(model).(dependencies := [Dependency(m.model, isEssential)] + old(model).dependencies)
    {
      dependencies := [m] + dependencies;
      essential := [isEssential] + essential;
      model := model.(dependencies := [Dependency(m.model, isEssential)] + model.dependencies);
      Repr := Repr + m.Repr;
      assert forall i {:trigger dependencies[i]} | 0 < i < |dependencies| ::
          dependencies[i] == old(dependencies)[i - 1] && old(dependencies)[i - 1].Valid();
    }

    method CheckDependency(i: nat, now: nat) returns (failed: bool)
      requires OwnsDependencies() && i < |dependencies|
      modifies dependencies[i].Repr
      ensures OwnsDependencies()
      ensures (Dependency(dependencies[i].model, essential[i]), failed)
           == CheckOne(Dependency(old(dependencies[i].model), essential[i]), now)
      ensures forall j {:trigger dependencies[j]} | 0 <= j < |dependencies| && j != i ::
                dependencies[j].model == old(dependencies[j].model)
      decreases Repr, 0
    {
      var verdict := dependencies[i].CheckState(now);
      failed := IsFailure(verdict) && essential[i];
    }

    /** The scan over the dependencies, up to the first essential failure. */
    method CheckDependencies(now: nat) returns (failed: bool)
      requires Valid()
      modifies Repr - {this}
      ensures OwnsDependencies()
      ensures failed == CheckAll(model.dependencies, now).1 && |CheckAll(model.dependencies, now).0| == |dependencies|
      ensures forall j {:trigger dependencies[j]} | 0 <= j < |dependencies| ::
                Dependency(dependencies[j].model, essential[j]) == CheckAll(model.dependencies, now).0[j]
      decreases Repr, 1
    {
      var i := 0;
      failed := false;
      ghost var checked := [];
      ScanBegins(model.dependencies, now);
      while i < |dependencies| && !failed
        invariant 0 <= i <= |dependencies| && |checked| == i && OwnsDependencies()
        invariant forall j {:trigger dependencies[j]} | 0 <= j < |dependencies| ::
                    Dependency(dependencies[j].model, essential[j])
                    == if j < i then checked[j] else model.dependencies[j]
        invariant IsScanned(model.dependencies, now, checked, failed)
      {
        ScanAdvances(model.dependencies, now, checked);
        checked := checked + [CheckOne(model.dependencies[i], now).0];
        failed := CheckDependency(i, now);
        i := i + 1;
      }
    }

    method CheckState(now: nat) returns (verdict: MessageState)
      requires Valid()
      modifies Repr
      ensures Valid() && Repr == old(Repr)
      ensures (model, verdict) == Check(old(model), now)
      decreases Repr, 2
    {
      if isDone { return state; }
      if now > timePoint {
        state := TIMEDOUT;
        isDone := true;
        if marksFailure { state := FAILED; }
        model := MarkFailed(model, TIMEDOUT);
        return state;
      }
      var failed := CheckDependencies(now);
      model := model.(dependencies := CheckAll(model.dependencies, now).0);
      if failed {
        model := MarkFailed(model, state);
        if marksFailure { state := FAILED; }
        isDone := true;
        return TIMEDOUT;
      }
      return VALID;
    }
  }
}
