/** A node's routing table: itself, an optional predecessor and a successor list padded to ten entries. */
module RoutingTables {
  import opened Identifiers

  datatype Option<+T> = None | Some(value: T)

  const SUCC_LIST_SIZE := 10

  /** The contents of a routing table.  Peers stand by their ids. */
  datatype Table = Table(self: Option<Id>, pred: Option<Id>, succs: seq<Id>) {
    /** What a default-constructed `Peer` holds after a failed `try_get_self`. */
    function SelfId(): Id {
      if self.Some? then self.value else NO_ID
    }
  }

  /** `std::vector::resize(10)`: cut off or fill up with default peers. */
  function Resized(peers: seq<Id>): (r: seq<Id>)
    ensures |r| == SUCC_LIST_SIZE
    ensures forall i | 0 <= i < SUCC_LIST_SIZE :: r[i] == if i < |peers| then peers[i] else NO_ID
  {
    if |peers| >= SUCC_LIST_SIZE then peers[..SUCC_LIST_SIZE]
    else peers + seq(SUCC_LIST_SIZE - |peers|, i => NO_ID)
  }

  function WithSuccessor(t: Table, peer: Id): Table {
    t.(succs := if t.succs == [] then [peer] else t.succs[0 := peer])
  }

  function WithSuccessorList(t: Table, peers: seq<Id>): Table {
    t.(succs := Resized(peers))
  }

  /** The tail of the list is pushed back behind the inserted peers. */
  function WithListAfterSuccessor(t: Table, peers: seq<Id>): Table
    requires t.succs != []
  {
    t.(succs := Resized([t.succs[0]] + peers + t.succs[1..]))
  }

  /** The last entry is never given up. */
  function WithoutFront(t: Table): Table {
    if |t.succs| <= 1 then t else t.(succs := t.succs[1..])
  }

  /* ---------- What these do to the list, entry by entry ---------- */

  lemma OnlyFirstIsSet(t: Table, peer: Id, i: nat)
    ensures var r := WithSuccessor(t, peer);
            && r.self == t.self && r.pred == t.pred && |r.succs| == (if t.succs == [] then 1 else |t.succs|)
            && (i < |r.succs| ==> r.succs[i] == if i == 0 then peer else t.succs[i])
  {
  }

  lemma WholeListIsReplaced(t: Table, peers: seq<Id>, i: nat)
    ensures var r := WithSuccessorList(t, peers);
            && r.self == t.self && r.pred == t.pred && |r.succs| == SUCC_LIST_SIZE
            && (i < SUCC_LIST_SIZE ==> r.succs[i] == if i < |peers| then peers[i] else NO_ID)
  {
  }

  /** The successor stays, the list comes behind it, the old tail behind that, and padding last. */
  lemma ListIsSplicedIn(t: Table, peers: seq<Id>, i: nat)
    requires t.succs != []
    ensures var r, n := WithListAfterSuccessor(t, peers), |peers|;
            && r.self == t.self && r.pred == t.pred && |r.succs| == SUCC_LIST_SIZE
            && (i < SUCC_LIST_SIZE ==>
                  r.succs[i] == if i == 0 then t.succs[0] else if i <= n then peers[i - 1]
                                else if i - n < |t.succs| then t.succs[i - n] else NO_ID)
  {
  }

  lemma OnlyFrontIsDropped(t: Table, i: nat)
    ensures var r := WithoutFront(t);
            && r.self == t.self && r.pred == t.pred
            && (if |t.succs| <= 1 then r.succs == t.succs
                else |r.succs| == |t.succs| - 1 && (i < |r.succs| ==> r.succs[i] == t.succs[i + 1]))
  {
  }

  class RoutingTable {
    var self: Option<Id>
    var predecessor: Option<Id>
    var successorList: seq<Id>

    function View(): Table
      reads this
    {
      Table(self, predecessor, successorList)
    }

    constructor ()
      ensures View() == Table(None, None, [])
    {
      self, predecessor, successorList := None, None, [];
    }

    method TryGetSelf() returns (found: bool, value: Id)
      ensures found == View().self.Some? && value == View().SelfId()
    {
      if self.None? { return false, NO_ID; }
      return true, self.value;
    }

    method SetSelf(peer: Id)
      modifies this
      ensures View() == old(View()).(self := Some(peer))
    {
      self := Some(peer);
    }

    method TryGetPredecessor() returns (found: bool, value: Id)
      ensures found == View().pred.Some?
      ensures value == if found then View().pred.value else NO_ID
    {
      if predecessor.None? { return false, NO_ID; }
      return true, predecessor.value;
    }

    method HasPredecessor() returns (has: bool)
      ensures has == View().pred.Some?
    {
      return predecessor.Some?;
    }

    method SetPredecessor(peer: Id)
      modifies this
      ensures View() == old(View()).(pred := Some(peer))
    {
      predecessor := Some(peer);
    }

    method ResetPredecessor()
      modifies this
      ensures View() == old(View()).(pred := None)
    {
      predecessor := None;
    }

    method TryGetSuccessor() returns (found: bool, value: Id)
      ensures found == (View().succs != [])
      ensures value == if found then View().succs[0] else NO_ID
    {
      if successorList == [] { return false, NO_ID; }
      return true, successorList[0];
    }

    method SetSuccessor(peer: Id)
      modifies this
      ensures View() == WithSuccessor(old(View()), peer)
    {
      if successorList == [] {
        successorList := successorList + [peer];
      } else {
        successorList := successorList[0 := peer];
      }
    }

    method ReplaceSuccessorList(peers: seq<Id>)
      modifies this
      ensures View() == WithSuccessorList(old(View()), peers)
    {
      successorList := peers;
      successorList := Resized(successorList);
    }

    method ReplaceAfterSuccessor(peers: seq<Id>)
      requires View().succs != []
      modifies this
      ensures View() == WithListAfterSuccessor(old(View()), peers)
    {
      successorList := successorList[..1] + peers + successorList[1..];
      successorList := Resized(successorList);
    }

    method PopFront() returns (popped: bool)
      modifies this
      ensures popped == (|old(View()).succs| > 1)
      ensures View() == WithoutFront(old(View()))
    {
      if |successorList| <= 1 { return false; }
      successorList := successorList[1..];
      return true;
    }
  }
}
