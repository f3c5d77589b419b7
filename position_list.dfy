/** `src/model/PositionList.ts`: an ordered list of positions that `add` keeps free of
    duplicates and from which `remove` splices out the first equal position. */
module PositionLists {
  import opened Positions
  import opened Util

  /** `findIndex(p => p.equals(position))`: the first index holding the position, or -1. */
  function FindIndex(s: seq<Position>, p: Position): (i: int)
    ensures -1 <= i < |s|
    ensures i == -1 <==> p !in s
    ensures i >= 0 ==> s[i] == p && p !in s[..i]
  {
    if s == [] then -1
    else if s[0].Equals(p) then 0
    else
      var k := FindIndex(s[1..], p);
      if k == -1 then -1
      else
        assert s[..k + 1] == [s[0]] + s[1..][..k];
        k + 1
  }

  /** `remove(position)` for a single position: splice out the first equal element. */
  function RemovedFirst(s: seq<Position>, p: Position): seq<Position> {
    var i := FindIndex(s, p);
    if i == -1 then s else s[..i] + s[i + 1..]
  }

  /** `remove(array)`: `remove` applied to each element in array order. */
  function RemovedFirstAll(s: seq<Position>, ps: seq<Position>): seq<Position> {
    if ps == [] then s else RemovedFirst(RemovedFirstAll(s, ps[..|ps| - 1]), ps[|ps| - 1])
  }

  /** `remove` of an absent position changes nothing; otherwise exactly one copy of it,
      the first, goes and the other elements keep their order. */
  lemma RemovedFirstShape(s: seq<Position>, p: Position)
    ensures p !in s ==> RemovedFirst(s, p) == s
    ensures p in s ==> |RemovedFirst(s, p)| == |s| - 1
    ensures multiset(RemovedFirst(s, p)) == multiset(s) - multiset{p}
    ensures p in s ==> exists i :: 0 <= i < |s| && s[i] == p && p !in s[..i] && RemovedFirst(s, p) == s[..i] + s[i + 1..]
  {
    var i := FindIndex(s, p);
    if i != -1 {
      assert s == s[..i] + [s[i]] + s[i + 1..];
      assert multiset(s) == multiset(s[..i]) + multiset{p} + multiset(s[i + 1..]);
    } else {
      assert multiset(s)[p] == 0;
    }
  }

  /** In a list without duplicates, `remove` leaves no copy behind and adds no duplicate. */
  lemma RemovedFirstNoDuplicates(s: seq<Position>, p: Position)
    requires NoDuplicates(s)
    ensures p !in RemovedFirst(s, p) && NoDuplicates(RemovedFirst(s, p))
  {
    var i := FindIndex(s, p);
    if i != -1 {
      var r := RemovedFirst(s, p);
      assert |r| == |s| - 1;
      assert forall k :: 0 <= k < |r| ==> r[k] == s[if k < i then k else k + 1];
    }
  }

  /** After `remove(array)` none of the array's positions is left, provided the list held
      no duplicates. */
  lemma {:induction false} RemovedFirstAllProperties(s: seq<Position>, ps: seq<Position>)
    requires NoDuplicates(s)
    ensures NoDuplicates(RemovedFirstAll(s, ps))
    ensures forall x :: x in RemovedFirstAll(s, ps) <==> x in s && x !in ps
  {
    if ps != [] {
      var init, last := ps[..|ps| - 1], ps[|ps| - 1];
      RemovedFirstAllProperties(s, init);
      var r := RemovedFirstAll(s, init);
      RemovedFirstShape(r, last);
      RemovedFirstNoDuplicates(r, last);
      forall x ensures x in RemovedFirst(r, last) <==> x in r && x != last {
        assert x in RemovedFirst(r, last) <==> multiset(RemovedFirst(r, last))[x] > 0;
        assert x in r <==> multiset(r)[x] > 0;
      }
      assert ps == init + [last];
    }
  }

  class PositionList {
    var positions: seq<Position>

    constructor (positions: seq<Position>)
      ensures this.positions == positions
    {
      this.positions := positions;
    }

    /** `fromArray` copies the caller's array. */
    static method FromArray(a: array<Position>) returns (l: PositionList)
      ensures fresh(l)
      ensures l.positions == a[..]
    {
      l := new PositionList(a[..]);
    }

    /** `toArray` returns a fresh copy. */
    method ToArray() returns (a: array<Position>)
      ensures fresh(a)
      ensures a[..] == positions
    {
      a := new Position[|positions|](i requires 0 <= i < |positions| reads this => positions[i]);
    }

    /** Some element `equals` the position. */
    predicate Contains(p: Position)
      reads this
    {
      exists i :: 0 <= i < |positions| && positions[i].Equals(p)
    }

    lemma ContainsIsMembership(p: Position)
      ensures Contains(p) <==> p in positions
    {
    }

    method Add(p: Position)
      modifies this
      ensures positions == Added(old(positions), p)
      ensures Contains(p)
      ensures |positions| <= |old(positions)| + 1
    {
      if !Contains(p) {
        positions := positions + [p];
      }
      ContainsIsMembership(p);
    }

    method AddAll(ps: seq<Position>)
      modifies this
      ensures positions == AddedAll(old(positions), ps)
    {
      var i := 0;
      while i < |ps|
        invariant 0 <= i <= |ps|
        invariant positions == AddedAll(old(positions), ps[..i])
      {
        assert ps[..i + 1][..i] == ps[..i];
        ContainsIsMembership(ps[i]);
        Add(ps[i]);
        i := i + 1;
      }
      assert ps[..i] == ps;
    }

    method Remove(p: Position)
      modifies this
      ensures positions == RemovedFirst(old(positions), p)
      ensures old(NoDuplicates(positions)) ==> !Contains(p)
    {
      var index := FindIndex(positions, p);
      if index != -1 {
        positions := positions[..index] + positions[index + 1..];
      }
      if old(NoDuplicates(positions)) {
        RemovedFirstNoDuplicates(old(positions), p);
      }
      ContainsIsMembership(p);
    }

    method RemoveAll(ps: seq<Position>)
      modifies this
      ensures positions == RemovedFirstAll(old(positions), ps)
    {
      var i := 0;
      while i < |ps|
        invariant 0 <= i <= |ps|
        invariant positions == RemovedFirstAll(old(positions), ps[..i])
      {
        assert ps[..i + 1][..i] == ps[..i];
        Remove(ps[i]);
        i := i + 1;
      }
      assert ps[..i] == ps;
    }
  }
}
