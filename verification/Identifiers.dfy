/** Ring identifiers: the lexicographic order of node ids and the cyclic order `Between` built on it. */
module Identifiers {
  type Id = string

  /** The id of a default-constructed peer, which pads successor lists. */
  const NO_ID: Id := ""

  /** `a.compare(b) < 0` on strings: first differing character decides, a proper prefix is smaller. */
  predicate Less(a: Id, b: Id) {
    if b == "" then false
    else if a == "" then true
    else if a[0] != b[0] then a[0] < b[0]
    else Less(a[1..], b[1..])
  }

  /** `a` and `b` agree on their first `k` characters, and there `a` ends or has the smaller character. */
  predicate ComesFirstAt(a: Id, b: Id, k: nat) {
    k <= |a| && k < |b| && a[..k] == b[..k] && (k == |a| || a[k] < b[k])
  }

  /** The order is that of dictionaries. */
  lemma {:induction false} LessIsStringOrder(a: Id, b: Id)
    ensures Less(a, b) <==> exists k :: ComesFirstAt(a, b, k)
  {
    if a == "" || b == "" || a[0] != b[0] {
      assert Less(a, b) ==> ComesFirstAt(a, b, 0);
      forall k: nat | ComesFirstAt(a, b, k) ensures Less(a, b) {
        if k > 0 { assert a[..k][0] == b[..k][0]; }
      }
    } else {
      LessIsStringOrder(a[1..], b[1..]);
      if k: nat :| ComesFirstAt(a[1..], b[1..], k) {
        assert a[..k + 1] == [a[0]] + a[1..][..k] && b[..k + 1] == [b[0]] + b[1..][..k];
        assert ComesFirstAt(a, b, k + 1);
      }
      if k: nat :| ComesFirstAt(a, b, k) {
        assert k > 0 && a[1..][..k - 1] == a[..k][1..] && b[1..][..k - 1] == b[..k][1..];
        assert ComesFirstAt(a[1..], b[1..], k - 1);
      }
    }
  }

  /** What two ids have in common in front does not matter. */
  lemma {:induction false} CommonPrefixDoesNotMatter(p: Id, a: Id, b: Id)
    ensures Less(p + a, p + b) <==> Less(a, b)
    decreases |p|
  {
    if p == "" {
      assert p + a == a && p + b == b;
    } else {
      assert (p + a)[1..] == p[1..] + a && (p + b)[1..] == p[1..] + b;
      CommonPrefixDoesNotMatter(p[1..], a, b);
    }
  }

  /** Does `b` lie strictly inside the clockwise arc from `a` to `c`?  The arc from `a` to `a` is the whole ring. */
  predicate Between(a: Id, b: Id, c: Id) {
    if Less(a, c) then Less(a, b) && Less(b, c)
    else Less(a, b) || Less(b, c)
  }

  lemma {:induction false} LessIsAsymmetric(a: Id, b: Id)
    ensures !(Less(a, b) && Less(b, a))
    ensures a != b ==> Less(a, b) || Less(b, a)
  {
    if a != "" && b != "" && a[0] == b[0] {
      LessIsAsymmetric(a[1..], b[1..]);
      assert a == [a[0]] + a[1..] && b == [b[0]] + b[1..];
    }
  }

  lemma {:induction false} LessIsTransitive(a: Id, b: Id, c: Id)
    requires Less(a, b) && Less(b, c)
    ensures Less(a, c)
  {
    if a != "" && a[0] == b[0] && b[0] == c[0] {
      LessIsTransitive(a[1..], b[1..], c[1..]);
    }
  }

  /** `Between` can be read starting from any of its three ids. */
  lemma BetweenRotates(a: Id, b: Id, c: Id)
    requires a != c
    ensures Between(a, b, c) ==> b != a && b != c
    ensures Between(a, b, c) <==> (b != a && b != c && Between(b, c, a))
  {
    LessIsAsymmetric(a, b);
    LessIsAsymmetric(b, c);
    LessIsAsymmetric(a, c);
    LessIsAsymmetric(a, a);
    LessIsAsymmetric(c, c);
    if Less(a, b) && Less(b, c) { LessIsTransitive(a, b, c); }
    if Less(b, c) && Less(c, a) { LessIsTransitive(b, c, a); }
    if Less(c, a) && Less(a, b) { LessIsTransitive(c, a, b); }
    if Less(c, b) && Less(b, a) { LessIsTransitive(c, b, a); }
    if Less(b, a) && Less(a, c) { LessIsTransitive(b, a, c); }
    if Less(a, c) && Less(c, b) { LessIsTransitive(a, c, b); }
  }

  /** On three distinct ids exactly one of the two orientations holds. */
  lemma BetweenIsTotal(a: Id, b: Id, c: Id)
    requires a != b && b != c && a != c
    ensures Between(a, b, c) <==> !Between(a, c, b)
  {
    LessIsAsymmetric(a, b);
    LessIsAsymmetric(b, c);
    LessIsAsymmetric(a, c);
    if Less(a, b) && Less(b, c) { LessIsTransitive(a, b, c); }
    if Less(b, c) && Less(c, a) { LessIsTransitive(b, c, a); }
    if Less(c, a) && Less(a, b) { LessIsTransitive(c, a, b); }
    if Less(c, b) && Less(b, a) { LessIsTransitive(c, b, a); }
    if Less(b, a) && Less(a, c) { LessIsTransitive(b, a, c); }
    if Less(a, c) && Less(c, b) { LessIsTransitive(a, c, b); }
  }

  /** From a node to itself the arc is everything else; the start of an arc is never inside it. */
  lemma BetweenFullCircle(a: Id, b: Id)
    ensures Between(a, b, a) <==> a != b
    ensures !Between(a, a, b) && !Between(a, b, b)
  {
    LessIsAsymmetric(a, b);
    LessIsAsymmetric(a, a);
    LessIsAsymmetric(b, b);
  }

  /** Cutting an arc at an inner point `b` gives two arcs inside it; the second lies beyond `b`. */
  lemma BetweenIsTransitive(a: Id, b: Id, c: Id, d: Id)
    requires Between(a, b, d) && Between(b, c, d)
    ensures Between(a, c, d)
    ensures c != a && c != b && c != d
  {
    LessIsAsymmetric(a, b); LessIsAsymmetric(a, c); LessIsAsymmetric(a, d);
    LessIsAsymmetric(b, c); LessIsAsymmetric(b, d); LessIsAsymmetric(c, d);
    LessIsAsymmetric(c, c);
    forall x, y, z | x in {a, b, c, d} && y in {a, b, c, d} && z in {a, b, c, d} && Less(x, y) && Less(y, z)
      ensures Less(x, z)
    {
      LessIsTransitive(x, y, z);
    }
  }

  /** Arcs from the same start nest: with `c` in `(a, d)` and `b` in `(a, c)`, `b` comes before `c` before `d`. */
  lemma BetweenNests(a: Id, b: Id, c: Id, d: Id)
    requires Between(a, b, c) && Between(a, c, d)
    ensures Between(a, b, d) && Between(b, c, d)
  {
    LessIsAsymmetric(a, b); LessIsAsymmetric(a, c); LessIsAsymmetric(a, d);
    LessIsAsymmetric(b, c); LessIsAsymmetric(b, d); LessIsAsymmetric(c, d);
    LessIsAsymmetric(a, a);
    forall x, y, z | x in {a, b, c, d} && y in {a, b, c, d} && z in {a, b, c, d} && Less(x, y) && Less(y, z)
      ensures Less(x, z)
    {
      LessIsTransitive(x, y, z);
    }
  }

  /* ---------- Rings: the ids of all nodes, in increasing order ---------- */

  type Ring = seq<Id>

  ghost predicate IsRing(ring: Ring) {
    forall i, j {:trigger Less(ring[i], ring[j])} | 0 <= i < j < |ring| :: Less(ring[i], ring[j])
  }

  ghost function Pos(ring: Ring, x: Id): (i: nat)
    requires x in ring
    ensures i < |ring| && ring[i] == x
  {
    var i :| 0 <= i < |ring| && ring[i] == x;
    i
  }

  /** Clockwise distance from `a` to `b`, counted in ids. */
  ghost function Dist(ring: Ring, a: Id, b: Id): nat
    requires a in ring && b in ring
  {
    var (i, j) := (Pos(ring, a), Pos(ring, b));
    if i <= j then j - i else j + |ring| - i
  }

  /** Like `Dist`, but going from a node to itself takes a whole lap. */
  ghost function Lap(ring: Ring, a: Id, b: Id): nat
    requires a in ring && b in ring
  {
    if a == b then |ring| else Dist(ring, a, b)
  }

  /** Ids on a ring sit at distinct positions, and `Less` compares them. */
  lemma LessComparesPositions(ring: Ring, a: Id, b: Id)
    requires IsRing(ring) && a in ring && b in ring
    ensures Less(a, b) <==> Pos(ring, a) < Pos(ring, b)
    ensures a == b <==> Pos(ring, a) == Pos(ring, b)
  {
    LessIsAsymmetric(a, b);
    LessIsAsymmetric(a, a);
  }

  lemma PosOfElement(ring: Ring, i: nat)
    requires IsRing(ring) && i < |ring|
    ensures Pos(ring, ring[i]) == i
  {
    LessIsAsymmetric(ring[i], ring[i]);
  }

  /** `Between` compares distances measured clockwise from its first id. */
  lemma BetweenComparesDistances(ring: Ring, a: Id, b: Id, c: Id)
    requires IsRing(ring) && a in ring && b in ring && c in ring
    ensures Between(a, b, c) <==> a != b && Dist(ring, a, b) < Lap(ring, a, c)
  {
    LessComparesPositions(ring, a, b);
    LessComparesPositions(ring, b, c);
    LessComparesPositions(ring, a, c);
  }

  lemma SamePlace(ring: Ring, a: Id, x: Id, y: Id)
    requires a in ring && x in ring && y in ring && Dist(ring, a, x) == Dist(ring, a, y)
    ensures x == y
  {
  }

  lemma SomePlace(ring: Ring, a: Id, d: nat) returns (x: Id)
    requires IsRing(ring) && a in ring && d < |ring|
    ensures x in ring && Dist(ring, a, x) == d
  {
    var i := Pos(ring, a) + d;
    if i >= |ring| { i := i - |ring|; }
    PosOfElement(ring, i);
    x := ring[i];
  }

  lemma {:induction false} ArcHolds(ring: Ring, a: Id, d: nat)
    requires IsRing(ring) && a in ring && d < |ring|
    ensures |set x | x in ring && 0 < Dist(ring, a, x) <= d| == d
    decreases d
  {
    var arc := set x | x in ring && 0 < Dist(ring, a, x) <= d;
    if d == 0 {
      assert arc == {};
    } else {
      ArcHolds(ring, a, d - 1);
      var y := SomePlace(ring, a, d);
      var shorter := set x | x in ring && 0 < Dist(ring, a, x) <= d - 1;
      forall x | x in ring && Dist(ring, a, x) == d ensures x == y { SamePlace(ring, a, x, y); }
      assert arc == shorter + {y};
    }
  }

  /** What `Lap` measures: the ids strictly inside the arc from `a` to `b`, and one. */
  lemma LapCountsIds(ring: Ring, a: Id, b: Id)
    requires IsRing(ring) && a in ring && b in ring
    ensures Lap(ring, a, b) == 1 + |set x | x in ring && Between(a, x, b)|
  {
    var inside := set x | x in ring && Between(a, x, b);
    var d := Lap(ring, a, b) - 1;
    forall x | x in ring ensures Between(a, x, b) <==> 0 < Dist(ring, a, x) <= d {
      BetweenComparesDistances(ring, a, x, b);
      if Dist(ring, a, x) == 0 { SamePlace(ring, a, x, a); }
    }
    assert inside == set x | x in ring && 0 < Dist(ring, a, x) <= d;
    ArcHolds(ring, a, d);
  }

  /** Any finite set of ids can be laid out as a ring, so speaking of rings is no restriction. */
  lemma {:induction false} EverySetIsARing(ids: set<Id>) returns (ring: Ring)
    ensures IsRing(ring) && forall x :: x in ids <==> x in ring
  {
    if ids == {} {
      ring := [];
    } else {
      var top := Greatest(ids);
      var rest := EverySetIsARing(ids - {top});
      ring := rest + [top];
      forall x | x in ids ensures x in ring {
        if x == top { assert ring[|rest|] == x; }
      }
    }
  }

  lemma {:induction false} Greatest(ids: set<Id>) returns (top: Id)
    requires ids != {}
    ensures top in ids && forall x | x in ids && x != top :: Less(x, top)
  {
    top :| top in ids;
    if ids != {top} {
      var other := Greatest(ids - {top});
      LessIsAsymmetric(top, other);
      if Less(top, other) {
        forall x | x in ids && x != other ensures Less(x, other) {}
        top := other;
      } else {
        forall x | x in ids && x != top ensures Less(x, top) {
          if x != other { LessIsTransitive(x, other, top); }
        }
      }
    }
  }
}
