/** Handing responses to the requests that await them, and dropping messages that are done. */
module Handlers {
  import opened Identifiers
  import opened RoutingTables
  import opened MessageTrees

  /* ---------- Cleaning up messages ---------- */

  function Count(ts: seq<Tree>, p: Tree -> bool): nat {
    if ts == [] then 0 else (if p(ts[0]) then 1 else 0) + Count(ts[1..], p)
  }

  lemma {:induction false} CountOfBoth(a: seq<Tree>, b: seq<Tree>, p: Tree -> bool)
    ensures Count(a + b, p) == Count(a, p) + Count(b, p)
  {
    if a == [] {
      assert a + b == b;
    } else {
      assert (a + b)[1..] == a[1..] + b;
      CountOfBoth(a[1..], b, p);
    }
  }

  function Is(z: Tree): Tree -> bool {
    t => t == z
  }

  /** Checking leaves the message unfinished, as `z`. */
  function Stays(z: Tree, now: nat): Tree -> bool {
    t => Check(t, now).0 == z && !z.done
  }

  lemma {:induction false} CountIsMultiplicity(ts: seq<Tree>, z: Tree)
    ensures Count(ts, Is(z)) == multiset(ts)[z]
  {
    if ts != [] {
      CountIsMultiplicity(ts[1..], z);
      assert ts == [ts[0]] + ts[1..];
    }
  }

  lemma {:induction false} SameCounts(a: seq<Tree>, b: seq<Tree>)
    requires forall z :: Count(a, Is(z)) == Count(b, Is(z))
    ensures multiset(a) == multiset(b)
  {
    forall z ensures multiset(a)[z] == multiset(b)[z] {
      CountIsMultiplicity(a, z);
      CountIsMultiplicity(b, z);
    }
  }

  /** The list with message `i` checked where it stands, or dropped for the last one when that finds it done. */
  function Visited(d: seq<Tree>, i: nat, now: nat): seq<Tree>
    requires i < |d|
  {
    var z := Check(d[i], now).0;
    if z.done then d[i := d[|d| - 1]][..|d| - 1] else d[i := z]
  }

  function NextToVisit(d: seq<Tree>, i: nat, now: nat): nat
    requires i < |d|
  {
    if Check(d[i], now).0.done then i else i + 1
  }

  lemma LastFillsTheGap(d: seq<Tree>, i: nat, p: Tree -> bool)
    requires i < |d|
    ensures var filled := d[i := d[|d| - 1]][..|d| - 1];
            filled[..i] == d[..i] && Count(filled[i..], p) == Count(d[i + 1..], p)
  {
    var last := |d| - 1;
    var filled := d[i := d[last]][..last];
    if i < last {
      var middle := d[i + 1..last];
      assert filled[i..] == [d[last]] + middle;
      assert d[i + 1..] == middle + [d[last]];
      CountOfBoth(middle, [d[last]], p);
      CountOfBoth([d[last]], middle, p);
    }
  }

  /** What lies behind `i` loses the message visited and nothing else; what lies before gains it unless done. */
  lemma VisitCounts(d: seq<Tree>, i: nat, now: nat, p: Tree -> bool)
    requires i < |d|
    ensures var v, next, z := Visited(d, i, now), NextToVisit(d, i, now), Check(d[i], now).0;
            && next <= |v|
            && Count(d[i..], p) == Count(v[next..], p) + (if p(d[i]) then 1 else 0)
            && Count(v[..next], p) == Count(d[..i], p) + (if !z.done && p(z) then 1 else 0)
  {
    var v, next := Visited(d, i, now), NextToVisit(d, i, now);
    assert d[i..] == [d[i]] + d[i + 1..];
    if next == i {
      LastFillsTheGap(d, i, p);
    } else {
      assert v[..next] == d[..i] + [v[i]] && v[next..] == d[next..];
      CountOfBoth(d[..i], [v[i]], p);
    }
  }

  /** Nothing is lost: before `i` stand checked messages, behind it those yet to be checked. */
  ghost predicate IsCleanedTo(was: seq<Tree>, d: seq<Tree>, i: nat, checked: seq<Tree>, now: nat) {
    && i <= |d|
    && (forall z :: Count(was, Is(z)) == Count(checked, Is(z)) + Count(d[i..], Is(z)))
    && (forall z :: Count(was, Stays(z, now)) == Count(d[..i], Is(z)) + Count(d[i..], Stays(z, now)))
  }

  lemma VisitKeepsCounts(was: seq<Tree>, d: seq<Tree>, i: nat, checked: seq<Tree>, now: nat, z: Tree)
    requires IsCleanedTo(was, d, i, checked, now) && i < |d|
    ensures var v, next := Visited(d, i, now), NextToVisit(d, i, now);
            && next <= |v|
            && Count(was, Is(z)) == Count(checked + [d[i]], Is(z)) + Count(v[next..], Is(z))
            && Count(was, Stays(z, now)) == Count(v[..next], Is(z)) + Count(v[next..], Stays(z, now))
  {
    VisitCounts(d, i, now, Is(z));
    VisitCounts(d, i, now, Stays(z, now));
    CountOfBoth(checked, [d[i]], Is(z));
  }

  lemma VisitKeepsCleaned(was: seq<Tree>, d: seq<Tree>, i: nat, checked: seq<Tree>, now: nat)
    requires IsCleanedTo(was, d, i, checked, now) && i < |d|
    ensures IsCleanedTo(was, Visited(d, i, now), NextToVisit(d, i, now), checked + [d[i]], now)
  {
    forall z { VisitKeepsCounts(was, d, i, checked, now, z); }
    VisitKeepsCounts(was, d, i, checked, now, d[i]);
  }

  lemma CleanedToTheEnd(was: seq<Tree>, d: seq<Tree>, checked: seq<Tree>, now: nat)
    requires IsCleanedTo(was, d, |d|, checked, now)
    ensures multiset(checked) == multiset(was)
    ensures forall z :: multiset(d)[z] == Count(was, Stays(z, now))
  {
    assert d[..|d|] == d;
    SameCounts(checked, was);
    forall z ensures multiset(d)[z] == Count(was, Stays(z, now)) {
      CountIsMultiplicity(d, z);
    }
  }

  class ConcurrentDeque {
    var deque: seq<Tree>

    constructor ()
      ensures deque == []
    {
      deque := [];
    }

    method PushBack(t: Tree)
      modifies this
      ensures deque == old(deque) + [t]
    {
      deque := deque + [t];
    }

    /** Every message is checked once, and those that stay are the unfinished ones. */
    method Clean(now: nat) returns (ghost checked: seq<Tree>)
      modifies this
      ensures multiset(checked) == multiset(old(deque))
      ensures forall z :: multiset(deque)[z] == Count(old(deque), Stays(z, now))
    {
      ghost var was := deque;
      checked := [];
      var i := 0;
      assert deque[0..] == deque;
      while i < |deque|
        invariant IsCleanedTo(was, deque, i, checked, now)
        decreases |deque| - i
      {
        VisitKeepsCleaned(was, deque, i, checked, now);
        checked := checked + [deque[i]];
        ghost var before := deque;
        deque := deque[i := Check(deque[i], now).0];
        if !deque[i].done {
          i := i + 1;
        } else {
          deque := deque[i := deque[|deque| - 1]];
          deque := deque[..|deque| - 1];
          assert deque == Visited(before, i, now);
        }
      }
      CleanedToTheEnd(was, deque, checked, now);
    }
  }

  /* ---------- Registered handlers ---------- */

  /** A handler waiting for the response to request `key`; `number` tells registrations apart. */
  datatype Handler = Handler(key: string, number: nat, persistent: bool)

  /** The ordered set's contents: one handler a key, keys increasing. */
  ghost predicate IsOrdered(hs: seq<Handler>) {
    forall i, j {:trigger hs[i], hs[j]} | 0 <= i < j < |hs| :: Less(hs[i].key, hs[j].key)
  }

  /** Where `key` is or would be inserted: behind all smaller keys. */
  function LowerBound(hs: seq<Handler>, key: string): (i: nat)
    ensures i <= |hs|
    ensures forall j | 0 <= j < i :: Less(hs[j].key, key)
    ensures i < |hs| ==> !Less(hs[i].key, key)
  {
    if hs == [] || !Less(hs[0].key, key) then 0 else 1 + LowerBound(hs[1..], key)
  }

  predicate IsAt(hs: seq<Handler>, i: nat, key: string) {
    i < |hs| && hs[i].key == key
  }

  function Found(hs: seq<Handler>, key: string): Option<Handler> {
    var i := LowerBound(hs, key);
    if IsAt(hs, i, key) then Some(hs[i]) else None
  }

  /** A key that is taken keeps the handler it has. */
  function Inserted(hs: seq<Handler>, h: Handler): seq<Handler> {
    var i := LowerBound(hs, h.key);
    if IsAt(hs, i, h.key) then hs else hs[..i] + [h] + hs[i..]
  }

  predicate CanBeErased(h: Handler) {
    !h.persistent
  }

  function Taken(hs: seq<Handler>, key: string, mayErase: Handler -> bool): seq<Handler> {
    var i := LowerBound(hs, key);
    if IsAt(hs, i, key) && mayErase(hs[i]) then hs[..i] + hs[i + 1..] else hs
  }

  function Without(hs: seq<Handler>, p: Handler -> bool): seq<Handler> {
    if hs == [] then []
    else Without(hs[..|hs| - 1], p) + if p(hs[|hs| - 1]) then [] else [hs[|hs| - 1]]
  }

  /** In an ordered set searching finds what is there. */
  lemma FoundIffPresent(hs: seq<Handler>, key: string)
    requires IsOrdered(hs)
    ensures forall h :: Found(hs, key) == Some(h) <==> h in hs && h.key == key
  {
    var i := LowerBound(hs, key);
    forall h | h in hs && h.key == key ensures Found(hs, key) == Some(h) {
      var j :| 0 <= j < |hs| && hs[j] == h;
      LessIsAsymmetric(key, key);
    }
  }

  lemma PutAdds(hs: seq<Handler>, i: nat, h: Handler)
    requires i <= |hs|
    ensures forall g :: g in hs[..i] + [h] + hs[i..] <==> g in hs || g == h
  {
    assert hs == hs[..i] + hs[i..];
  }

  lemma PutKeepsOrder(hs: seq<Handler>, i: nat, h: Handler)
    requires IsOrdered(hs) && i <= |hs|
    requires forall j | 0 <= j < |hs| :: if j < i then Less(hs[j].key, h.key) else Less(h.key, hs[j].key)
    ensures IsOrdered(hs[..i] + [h] + hs[i..])
  {
    var z := hs[..i] + [h] + hs[i..];
    assert forall j | 0 <= j < |z| :: z[j] == if j < i then hs[j] else if j == i then h else hs[j - 1];
  }

  lemma InsertKeepsOrder(hs: seq<Handler>, h: Handler)
    requires IsOrdered(hs)
    ensures IsOrdered(Inserted(hs, h))
    ensures forall g :: g in Inserted(hs, h) <==> g in hs || (g == h && Found(hs, h.key).None?)
  {
    var i := LowerBound(hs, h.key);
    if !IsAt(hs, i, h.key) {
      forall j | i <= j < |hs| ensures Less(h.key, hs[j].key) {
        LessIsAsymmetric(hs[i].key, h.key);
        if j > i { LessIsTransitive(h.key, hs[i].key, hs[j].key); }
      }
      PutKeepsOrder(hs, i, h);
      PutAdds(hs, i, h);
    }
  }

  lemma RemoveKeepsOrder(hs: seq<Handler>, i: nat)
    requires IsOrdered(hs) && i < |hs|
    ensures IsOrdered(hs[..i] + hs[i + 1..])
    ensures forall g :: g in hs[..i] + hs[i + 1..] <==> g in hs && g != hs[i]
  {
    var z := hs[..i] + hs[i + 1..];
    assert hs == hs[..i] + [hs[i]] + hs[i + 1..];
    forall j | 0 <= j < |z| ensures z[j] in hs && z[j] != hs[i] {
      LessIsAsymmetric(hs[i].key, hs[i].key);
      assert z[j] == if j < i then hs[j] else hs[j + 1];
    }
  }

  lemma TakeKeepsOrder(hs: seq<Handler>, key: string, mayErase: Handler -> bool)
    requires IsOrdered(hs)
    ensures IsOrdered(Taken(hs, key, mayErase))
    ensures forall g :: g in Taken(hs, key, mayErase) <==> g in hs && !(g.key == key && mayErase(g))
  {
    FoundIffPresent(hs, key);
    var i := LowerBound(hs, key);
    if IsAt(hs, i, key) { RemoveKeepsOrder(hs, i); }
  }

  lemma {:induction false} WithoutKeepsOrder(hs: seq<Handler>, p: Handler -> bool)
    requires IsOrdered(hs)
    ensures IsOrdered(Without(hs, p))
    ensures forall g :: g in Without(hs, p) <==> g in hs && !p(g)
    decreases |hs|
  {
    if hs != [] {
      var last := |hs| - 1;
      WithoutKeepsOrder(hs[..last], p);
      assert hs == hs[..last] + [hs[last]];
      forall g | g in hs[..last] ensures Less(g.key, hs[last].key) {
        var j :| 0 <= j < last && hs[j] == g;
      }
      var rest := Without(hs[..last], p);
      forall j | 0 <= j < |rest| ensures Less(rest[j].key, hs[last].key) { assert rest[j] in rest; }
    }
  }

  class ConcurrentSet {
    var items: seq<Handler>

    constructor ()
      ensures items == []
    {
      items := [];
    }

    method Insert(h: Handler)
      modifies this
      ensures items == Inserted(old(items), h)
    {
      var i := LowerBound(items, h.key);
      if !IsAt(items, i, h.key) {
        items := items[..i] + [h] + items[i..];
      }
    }

    /** The handler found, which stays in the set if `mayErase` does not hold of it. */
    method GetAndEraseIf(key: string, mayErase: Handler -> bool) returns (h: Option<Handler>)
      modifies this
      ensures h == Found(old(items), key)
      ensures items == Taken(old(items), key, mayErase)
    {
      var i := LowerBound(items, key);
      if !IsAt(items, i, key) { return None; }
      h := Some(items[i]);
      if mayErase(items[i]) {
        items := items[..i] + items[i + 1..];
      }
    }

    method EraseIf(p: Handler -> bool)
      modifies this
      ensures items == Without(old(items), p)
    {
      ghost var was, seen: nat := items, 0;
      var i := 0;
      while i < |items|
        invariant seen <= |was| && i <= |items| && items[i..] == was[seen..]
        invariant items[..i] == Without(was[..seen], p)
        decreases |items| - i
      {
        assert was[..seen + 1][..seen] == was[..seen] && items[i] == was[seen];
        if p(items[i]) {
          items := items[..i] + items[i + 1..];
        } else {
          i := i + 1;
        }
        seen := seen + 1;
      }
      assert was[..seen] == was && items[..i] == items;
    }
  }

  /* ---------- Dispatching responses ---------- */

  /** A handler called with the response that carries `correlationId`. */
  datatype Call = Call(handler: Handler, correlationId: string)

  /** `expired` numbers the handlers whose message is gone. */
  datatype Dispatcher = Dispatcher(handlers: seq<Handler>, issued: nat, expired: set<nat>, calls: seq<Call>)

  datatype Event =
    | Register(key: string, persistent: bool)
    | Respond(correlationId: string)
    | Expire(number: nat)
    /** A message that asks to be destroyed has the handlers of expired ones erased. */
    | Sweep

  function IsExpired(expired: set<nat>): Handler -> bool {
    (h: Handler) => h.number in expired
  }

  function Handled(d: Dispatcher, e: Event): Dispatcher {
    match e
    case Register(key, persistent) =>
      d.(handlers := Inserted(d.handlers, Handler(key, d.issued, persistent)), issued := d.issued + 1)
    case Respond(id) =>
      var h := Found(d.handlers, id);
      d.(handlers := Taken(d.handlers, id, CanBeErased),
         calls := if h.Some? && h.value.number !in d.expired then d.calls + [Call(h.value, id)] else d.calls)
    case Expire(number) => d.(expired := d.expired + {number})
    case Sweep => d.(handlers := Without(d.handlers, IsExpired(d.expired)))
  }

  class MessageHandler {
    const activeHandlers: ConcurrentSet
    ghost var issued: nat
    /** Grows behind this object's back, as messages are destroyed. */
    var expired: set<nat>
    var calls: seq<Call>

    ghost function View(): Dispatcher
      reads this, activeHandlers
    {
      Dispatcher(activeHandlers.items, issued, expired, calls)
    }

    constructor ()
      ensures View() == Dispatcher([], 0, {}, []) && fresh(activeHandlers)
    {
      activeHandlers := new ConcurrentSet();
      issued, expired, calls := 0, {}, [];
    }

    method HandleNotificationWith(handler: Handler)
      requires handler.number == issued
      modifies this, activeHandlers
      ensures View() == Handled(old(View()), Register(handler.key, handler.persistent))
    {
      activeHandlers.Insert(handler);
      issued := issued + 1;
    }

    method HandleNotification()
      modifies activeHandlers
      ensures View() == Handled(old(View()), Sweep)
    {
      activeHandlers.EraseIf(IsExpired(expired));
    }

    method HandleResponse(correlationId: string)
      modifies this, activeHandlers
      ensures View() == Handled(old(View()), Respond(correlationId))
    {
      var handler := activeHandlers.GetAndEraseIf(correlationId, CanBeErased);
      if handler.Some? && handler.value.number !in expired {
        calls := calls + [Call(handler.value, correlationId)];
      }
    }
  }

  /** A handler still registered that is called once only has not been called yet; called ones were, at most once. */
  ghost predicate IsFair(d: Dispatcher) {
    && IsOrdered(d.handlers)
    && (forall h | h in d.handlers :: h.number < d.issued)
    && (forall g, h | g in d.handlers && h in d.handlers && g.number == h.number :: g == h)
    && (forall c | c in d.calls :: c.handler.key == c.correlationId && c.handler.number < d.issued)
    && (forall c, h | c in d.calls && h in d.handlers && c.handler.number == h.number :: c.handler == h && h.persistent)
    && (forall i, j {:trigger d.calls[i], d.calls[j]} |
          0 <= i < j < |d.calls| && d.calls[i].handler.number == d.calls[j].handler.number ::
          d.calls[i].handler == d.calls[j].handler && d.calls[i].handler.persistent)
  }

  lemma RegisterKeepsFair(d: Dispatcher, key: string, persistent: bool)
    requires IsFair(d)
    ensures IsFair(Handled(d, Register(key, persistent)))
  {
    InsertKeepsOrder(d.handlers, Handler(key, d.issued, persistent));
  }

  lemma RespondKeepsFair(d: Dispatcher, id: string)
    requires IsFair(d)
    ensures IsFair(Handled(d, Respond(id)))
  {
    FoundIffPresent(d.handlers, id);
    TakeKeepsOrder(d.handlers, id, CanBeErased);
    var z, n := Handled(d, Respond(id)), |d.calls|;
    assert forall c | c in z.calls :: c in d.calls || c == z.calls[n];
  }

  lemma EventKeepsFair(d: Dispatcher, e: Event)
    requires IsFair(d)
    ensures IsFair(Handled(d, e))
  {
    match e
    case Register(key, persistent) => RegisterKeepsFair(d, key, persistent);
    case Respond(id) => RespondKeepsFair(d, id);
    case Expire(_) =>
    case Sweep => WithoutKeepsOrder(d.handlers, IsExpired(d.expired));
  }

  function Dispatched(d: Dispatcher, events: seq<Event>): Dispatcher
    decreases |events|
  {
    if events == [] then d else Dispatched(Handled(d, events[0]), events[1..])
  }

  lemma {:induction false} RunKeepsFair(d: Dispatcher, events: seq<Event>)
    requires IsFair(d)
    ensures IsFair(Dispatched(d, events))
    decreases |events|
  {
    if events != [] {
      EventKeepsFair(d, events[0]);
      RunKeepsFair(Handled(d, events[0]), events[1..]);
    }
  }

  /** Over any run every response goes to a handler of its own key, and a handler not persistent gets one at most. */
  lemma HandlersAreCalledOnce(events: seq<Event>, i: nat, j: nat)
    ensures var calls := Dispatched(Dispatcher([], 0, {}, []), events).calls;
            && (i < |calls| ==> calls[i].handler.key == calls[i].correlationId)
            && (i < j < |calls| && !calls[i].handler.persistent ==> calls[i].handler.number != calls[j].handler.number)
  {
    RunKeepsFair(Dispatcher([], 0, {}, []), events);
    var calls := Dispatched(Dispatcher([], 0, {}, []), events).calls;
    if i < |calls| { assert calls[i] in calls; }
  }

  /* ---------- Every response that is awaited is delivered ---------- */

  /** How often handler `number` has been called. */
  function CallsOf(calls: seq<Call>, number: nat): nat {
    if calls == [] then 0
    else CallsOf(calls[..|calls| - 1], number) + if calls[|calls| - 1].handler.number == number then 1 else 0
  }

  /** How many responses with the key of `h` arrive before its message is gone. */
  function Answers(events: seq<Event>, h: Handler): nat {
    if events == [] || events[0] == Expire(h.number) then 0
    else (if events[0] == Respond(h.key) then 1 else 0) + Answers(events[1..], h)
  }

  /** A response calls the live handler of its key, and nobody else. */
  lemma ResponseIsOneCall(d: Dispatcher, id: string, number: nat)
    requires IsFair(d)
    ensures var h := Found(d.handlers, id);
            CallsOf(Handled(d, Respond(id)).calls, number) == CallsOf(d.calls, number)
              + if h.Some? && h.value.number !in d.expired && h.value.number == number then 1 else 0
  {
    var z := Handled(d, Respond(id));
    if z.calls != d.calls { assert z.calls[..|z.calls| - 1] == d.calls; }
  }

  /** A handler that is gone, or whose message is, is not called any more. */
  lemma {:induction false} GoneIsNotCalled(d: Dispatcher, number: nat, events: seq<Event>)
    requires IsFair(d) && number < d.issued
    requires number in d.expired || forall g | g in d.handlers :: g.number != number
    ensures CallsOf(Dispatched(d, events).calls, number) == CallsOf(d.calls, number)
    decreases |events|
  {
    if events != [] {
      EventKeepsFair(d, events[0]);
      match events[0] {
        case Register(key, persistent) => InsertKeepsOrder(d.handlers, Handler(key, d.issued, persistent));
        case Respond(id) =>
          FoundIffPresent(d.handlers, id);
          TakeKeepsOrder(d.handlers, id, CanBeErased);
          ResponseIsOneCall(d, id, number);
        case Expire(_) =>
        case Sweep => WithoutKeepsOrder(d.handlers, IsExpired(d.expired));
      }
      GoneIsNotCalled(Handled(d, events[0]), number, events[1..]);
    }
  }

  /** A registered handler survives whatever is not its end. */
  lemma HandlerStays(d: Dispatcher, h: Handler, e: Event)
    requires IsFair(d) && h in d.handlers && h.number !in d.expired && e != Expire(h.number)
    requires e == Respond(h.key) ==> h.persistent
    ensures var z := Handled(d, e); h in z.handlers && h.number !in z.expired
  {
    match e
    case Register(key, persistent) => InsertKeepsOrder(d.handlers, Handler(key, d.issued, persistent));
    case Respond(id) => TakeKeepsOrder(d.handlers, id, CanBeErased);
    case Expire(_) =>
    case Sweep => WithoutKeepsOrder(d.handlers, IsExpired(d.expired));
  }

  /** What one event adds to the calls of a live handler. */
  lemma EventCalls(d: Dispatcher, h: Handler, e: Event)
    requires IsFair(d) && h in d.handlers && h.number !in d.expired
    ensures CallsOf(Handled(d, e).calls, h.number)
         == CallsOf(d.calls, h.number) + if e == Respond(h.key) then 1 else 0
  {
    if e.Respond? {
      FoundIffPresent(d.handlers, e.correlationId);
      FoundIffPresent(d.handlers, h.key);
      ResponseIsOneCall(d, e.correlationId, h.number);
    }
  }

  /** A persistent handler gets every response to its key while its message lives, any other exactly the first. */
  lemma {:induction false} HandlerGetsItsResponses(d: Dispatcher, h: Handler, events: seq<Event>)
    requires IsFair(d) && h in d.handlers && h.number !in d.expired
    ensures var answers := Answers(events, h);
            CallsOf(Dispatched(d, events).calls, h.number) ==
              CallsOf(d.calls, h.number) + if h.persistent || answers == 0 then answers else 1
    decreases |events|
  {
    if events != [] {
      var e, z := events[0], Handled(d, events[0]);
      EventKeepsFair(d, e);
      EventCalls(d, h, e);
      if e == Expire(h.number) {
        GoneIsNotCalled(z, h.number, events[1..]);
      } else if e == Respond(h.key) && !h.persistent {
        TakeKeepsOrder(d.handlers, h.key, CanBeErased);
        GoneIsNotCalled(z, h.number, events[1..]);
      } else {
        HandlerStays(d, h, e);
        HandlerGetsItsResponses(z, h, events[1..]);
      }
    }
  }

  lemma {:induction false} NewHandlerHasNoCalls(calls: seq<Call>, number: nat)
    requires forall c | c in calls :: c.handler.number < number
    ensures CallsOf(calls, number) == 0
  {
    if calls != [] {
      assert calls[|calls| - 1] in calls;
      NewHandlerHasNoCalls(calls[..|calls| - 1], number);
    }
  }

  /** From its registration under a free key on, whatever happened before. */
  lemma RegisteredHandlerIsCalled(before: seq<Event>, key: string, persistent: bool, after: seq<Event>)
    requires var d := Dispatched(Dispatcher([], 0, {}, []), before);
             d.issued !in d.expired && forall g | g in d.handlers :: g.key != key
    ensures var d := Dispatched(Dispatcher([], 0, {}, []), before);
            var h := Handler(key, d.issued, persistent);
            var answers := Answers(after, h);
            CallsOf(Dispatched(Handled(d, Register(key, persistent)), after).calls, h.number) ==
              if persistent || answers == 0 then answers else 1
  {
    var d := Dispatched(Dispatcher([], 0, {}, []), before);
    var h := Handler(key, d.issued, persistent);
    RunKeepsFair(Dispatcher([], 0, {}, []), before);
    FoundIffPresent(d.handlers, key);
    InsertKeepsOrder(d.handlers, h);
    EventKeepsFair(d, Register(key, persistent));
    NewHandlerHasNoCalls(d.calls, d.issued);
    HandlerGetsItsResponses(Handled(d, Register(key, persistent)), h, after);
  }
}
