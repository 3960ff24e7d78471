/** The greedy routing decision of one node, and why it always makes progress. */
module FindSuccessors {
  import opened Identifiers
  import opened RoutingTables

  /** The greatest index holding a peer strictly between `self` and `id`, or -1. */
  function LastBetween(self: Id, peers: seq<Id>, id: Id): (i: int)
    ensures -1 <= i < |peers|
    ensures i >= 0 ==> Between(self, peers[i], id)
    ensures forall j | i < j < |peers| :: !Between(self, peers[j], id)
  {
    if peers == [] then -1
    else if Between(self, peers[|peers| - 1], id) then |peers| - 1
    else LastBetween(self, peers[..|peers| - 1], id)
  }

  /** `hop` is listed, lies strictly between `self` and `id`, and no later entry does. */
  predicate IsLastBetween(self: Id, peers: seq<Id>, id: Id, hop: Id) {
    exists i :: 0 <= i < |peers| && peers[i] == hop && IsLastBetweenAt(self, peers, id, i)
  }

  predicate IsLastBetweenAt(self: Id, peers: seq<Id>, id: Id, i: nat) {
    i < |peers| && Between(self, peers[i], id) && forall j | i < j < |peers| :: !Between(self, peers[j], id)
  }

  function ClosestPreceding(t: Table, id: Id): (hop: Option<Id>)
    ensures hop.None? <==> t.self.None?
    ensures hop.Some? && (exists p :: p in t.succs && Between(t.self.value, p, id)) ==>
              IsLastBetween(t.self.value, t.succs, id, hop.value)
    ensures hop.Some? && !(exists p :: p in t.succs && Between(t.self.value, p, id)) ==> hop == t.self
  {
    if t.self.None? then None
    else
      var i := LastBetween(t.self.value, t.succs, id);
      Some(if i < 0 then t.self.value else t.succs[i])
  }

  /** The locally known successor of `id`, or nothing when the request must be forwarded. */
  function Find(t: Table, id: Id): (peer: Option<Id>)
    ensures t.self.None? ==> peer.None?
    ensures t.self.Some? && t.succs == [] ==> peer == t.self
    ensures peer.Some? ==> peer == t.self || (t.succs != [] && peer.value == t.succs[0])
  {
    if t.self.None? then None
    else if t.succs != [] && (Between(t.self.value, id, t.succs[0]) || id == t.succs[0]) then Some(t.succs[0])
    else if ClosestPreceding(t, id) == t.self then t.self
    else None
  }

  /** The queries of a `FindSuccessor` message on the routing table of its node. */
  class FindSuccessor {
    const table: RoutingTable

    constructor (table: RoutingTable)
      ensures this.table == table
    {
      this.table := table;
    }

    method ClosestPrecedingNode(id: Id) returns (peer: Option<Id>)
      ensures peer == ClosestPreceding(table.View(), id)
    {
      var found, self := table.TryGetSelf();
      if !found { return None; }
      var peers := table.successorList;
      var i := |peers| - 1;
      while i >= 0
        invariant -1 <= i < |peers|
        invariant forall j | i < j < |peers| :: !Between(self, peers[j], id)
      {
        if Between(self, peers[i], id) { return Some(peers[i]); }
        i := i - 1;
      }
      return Some(self);
    }

    method FindSuccessor(id: Id) returns (peer: Option<Id>)
      ensures peer == Find(table.View(), id)
    {
      var hasSelf, self := table.TryGetSelf();
      if !hasSelf { return None; }
      if |table.successorList| == 0 {
        var predecessor := ClosestPrecedingNode(id);
        return if predecessor == Some(self) then Some(self) else None;
      }
      var hasSuccessor, successor := table.TryGetSuccessor();
      if Between(self, id, successor) || id == successor {
        return Some(successor);
      } else {
        var predecessor := ClosestPrecedingNode(id);
        return if predecessor == Some(self) then Some(self) else None;
      }
    }
  }

  /**
   * With a successor known, the lookup is answered locally exactly when `id` lies in `(self, successor]`;
   * otherwise it is forwarded to a listed peer strictly between `self` and `id`, so never back to `self`.
   */
  lemma RoutingMakesProgress(t: Table, id: Id)
    requires t.self.Some? && t.succs != []
    ensures Find(t, id) == if Between(t.self.value, id, t.succs[0]) || id == t.succs[0] then Some(t.succs[0]) else None
    ensures Find(t, id).None? ==>
              var hop := ClosestPreceding(t, id);
              hop.Some? && hop.value in t.succs && Between(t.self.value, hop.value, id) && hop.value != t.self.value
  {
    var self, front := t.self.value, t.succs[0];
    BetweenFullCircle(self, id);
    BetweenFullCircle(self, front);
    if !Between(self, id, front) && id != front {
      assert Between(self, front, id) by {
        if id != self && front != self { BetweenIsTotal(self, id, front); }
      }
    }
  }

  /** A default peer passes the scan exactly for lookups that wrap round, those with `id <= self`. */
  lemma PaddingPassesScan(self: Id, id: Id)
    requires self != NO_ID && id != NO_ID
    ensures Between(self, NO_ID, id) <==> !Less(self, id)
  {
  }

  /** With padding at the end of the list, the next hop is padding exactly for lookups that wrap round. */
  lemma PaddingIsChosen(t: Table, id: Id)
    requires t.self.Some? && t.succs != [] && t.succs[|t.succs| - 1] == NO_ID
    requires t.self.value != NO_ID && id != NO_ID
    ensures ClosestPreceding(t, id) == Some(NO_ID) <==> !Less(t.self.value, id)
  {
    PaddingPassesScan(t.self.value, id);
  }

  /** Exactly the lookups that wrap round and are not answered here go to nobody. */
  lemma LookupIsLostIff(t: Table, id: Id)
    requires t.self.Some? && t.succs != [] && t.succs[|t.succs| - 1] == NO_ID
    requires t.self.value != NO_ID && id != NO_ID
    ensures Find(t, id).None? && ClosestPreceding(t, id) == Some(NO_ID) <==>
            !Less(t.self.value, id) && !Between(t.self.value, id, t.succs[0]) && id != t.succs[0]
  {
    PaddingIsChosen(t, id);
    RoutingMakesProgress(t, id);
  }

  /** A lookup forwarded to nobody: two nodes, the list padded as after every list replacement. */
  lemma PaddingBreaksALookup()
    ensures var t := Table(Some("b"), Some("d"), Resized(["d", "b"]));
            Find(t, "a").None? && ClosestPreceding(t, "a") == Some(NO_ID)
  {
    var t := Table(Some("b"), Some("d"), Resized(["d", "b"]));
    assert Less("a", "b") && Less("b", "d") && !Less("b", "a") && !Less("d", "a");
    PaddingIsChosen(t, "a");
    RoutingMakesProgress(t, "a");
  }
}
