/** `src/model/Util.ts`: the accidental formatter and `ValueObjectSet`, a collection that
    keeps insertion order and refuses a second copy of an element already present. The
    sequence functions here are the specifications the collections are proved against. */
module Util {

  /** `formatFlatSharp`: the glyph substitution is disabled, so the text comes back as is. */
  function FormatFlatSharp(value: string): (r: string)
    ensures r == value
  {
    value
  }

  // ------------------------------------------------------------ filtering

  /** `Array.prototype.filter` with a callback that reads nothing. */
  function Filter<T>(s: seq<T>, keep: T -> bool): seq<T>
  {
    if s == [] then []
    else Filter(s[..|s| - 1], keep) + (if keep(s[|s| - 1]) then [s[|s| - 1]] else [])
  }

  /** An element survives the filter exactly when it was there and the callback keeps it. */
  lemma {:induction false} FilterMembership<T>(s: seq<T>, keep: T -> bool, x: T)
    ensures x in Filter(s, keep) <==> x in s && keep(x)
  {
    if s != [] {
      FilterMembership(s[..|s| - 1], keep, x);
      assert s == s[..|s| - 1] + [s[|s| - 1]];
    }
  }

  /** The survivors of a filter, for every element at once. */
  lemma FilterMembershipAll<T>(s: seq<T>, keep: T -> bool)
    ensures forall x :: x in Filter(s, keep) <==> x in s && keep(x)
  {
    forall x {
      FilterMembership(s, keep, x);
    }
  }

  /** Filtering works piece by piece, so the survivors keep their relative order. */
  lemma {:induction false} FilterConcat<T>(a: seq<T>, b: seq<T>, keep: T -> bool)
    ensures Filter(a + b, keep) == Filter(a, keep) + Filter(b, keep)
  {
    if b == [] {
      assert a + b == a;
    } else {
      var b' := b[..|b| - 1];
      FilterConcat(a, b', keep);
      assert (a + b)[..|a + b| - 1] == a + b';
    }
  }

  /** Nothing is added, and a second filter with the same callback changes nothing. */
  lemma {:induction false} FilterShrinksAndSettles<T>(s: seq<T>, keep: T -> bool)
    ensures |Filter(s, keep)| <= |s|
    ensures forall i :: 0 <= i < |Filter(s, keep)| ==> keep(Filter(s, keep)[i])
    ensures Filter(Filter(s, keep), keep) == Filter(s, keep)
  {
    if s != [] {
      var init, last := s[..|s| - 1], s[|s| - 1];
      FilterShrinksAndSettles(init, keep);
      if keep(last) {
        assert Filter(s, keep) == Filter(init, keep) + [last];
        FilterConcat(Filter(init, keep), [last], keep);
        assert Filter([last], keep) == [last] by {
          assert [last][..0] == [];
        }
      } else {
        assert Filter(s, keep) == Filter(init, keep);
      }
    }
  }

  /** A filter that keeps every element returns its input. */
  lemma {:induction false} FilterKeepsAll<T>(s: seq<T>, keep: T -> bool)
    requires forall i :: 0 <= i < |s| ==> keep(s[i])
    ensures Filter(s, keep) == s
  {
    if s != [] {
      FilterKeepsAll(s[..|s| - 1], keep);
    }
  }

  /** No two elements share a key. */
  predicate DistinctBy<T, K(==)>(s: seq<T>, key: T -> K) {
    forall i, j :: 0 <= i < j < |s| ==> key(s[i]) != key(s[j])
  }

  /** Filtering keeps keys distinct. */
  lemma {:induction false} FilterDistinctBy<T, K>(s: seq<T>, keep: T -> bool, key: T -> K)
    requires DistinctBy(s, key)
    ensures DistinctBy(Filter(s, keep), key)
  {
    if s != [] {
      var init, last := s[..|s| - 1], s[|s| - 1];
      FilterDistinctBy(init, keep, key);
      var f := Filter(init, keep);
      if keep(last) {
        forall i | 0 <= i < |f| ensures key(f[i]) != key(last) {
          FilterMembership(init, keep, f[i]);
          var k :| 0 <= k < |init| && init[k] == f[i];
          assert s[k] == f[i];
        }
      }
    }
  }

  /** Filtering keeps the survivors in their original relative order: any relation that
      holds between every earlier and later element still holds after the filter. */
  lemma {:induction false} FilterKeepsOrder<T>(s: seq<T>, keep: T -> bool, before: (T, T) -> bool)
    requires forall i, j :: 0 <= i < j < |s| ==> before(s[i], s[j])
    ensures forall i, j :: 0 <= i < j < |Filter(s, keep)| ==> before(Filter(s, keep)[i], Filter(s, keep)[j])
  {
    if s != [] {
      var init, last := s[..|s| - 1], s[|s| - 1];
      FilterKeepsOrder(init, keep, before);
      var f := Filter(init, keep);
      if keep(last) {
        forall i | 0 <= i < |f| ensures before(f[i], last) {
          FilterMembership(init, keep, f[i]);
          var k :| 0 <= k < |init| && init[k] == f[i];
          assert s[k] == f[i];
        }
      }
    }
  }

  // ------------------------------------------------------ adding elements

  predicate NoDuplicates<T(==)>(s: seq<T>) {
    forall i, j :: 0 <= i < j < |s| ==> s[i] != s[j]
  }

  /** `add(v)` for a single value: append unless already contained. */
  function Added<T(==)>(s: seq<T>, v: T): seq<T> {
    if v in s then s else s + [v]
  }

  /** `add(array)`: `add` applied to each element in array order. */
  function AddedAll<T(==)>(s: seq<T>, vs: seq<T>): seq<T> {
    if vs == [] then s else Added(AddedAll(s, vs[..|vs| - 1]), vs[|vs| - 1])
  }

  /** After `add(v)`, `v` is contained, earlier elements keep their places, the length grows
      by at most one, no duplicate appears, and adding `v` again changes nothing. */
  lemma AddedProperties<T>(s: seq<T>, v: T)
    ensures v in Added(s, v)
    ensures |Added(s, v)| <= |s| + 1 && Added(s, v)[..|s|] == s
    ensures forall x :: x in Added(s, v) <==> x in s || x == v
    ensures NoDuplicates(s) ==> NoDuplicates(Added(s, v))
    ensures Added(Added(s, v), v) == Added(s, v)
  {
  }

  /** After `add(array)` every element of the array is contained, nothing else was added,
      the old elements are a prefix, and duplicates inside the array collapse. */
  lemma {:induction false} AddedAllProperties<T>(s: seq<T>, vs: seq<T>)
    ensures |s| <= |AddedAll(s, vs)| && AddedAll(s, vs)[..|s|] == s
    ensures forall x :: x in AddedAll(s, vs) <==> x in s || x in vs
    ensures NoDuplicates(s) ==> NoDuplicates(AddedAll(s, vs))
  {
    if vs != [] {
      var init, last := vs[..|vs| - 1], vs[|vs| - 1];
      AddedAllProperties(s, init);
      AddedProperties(AddedAll(s, init), last);
      assert vs == init + [last];
    }
  }

  // ---------------------------------------------------- removing elements

  /** `remove(v)` for a single value: `filter(x => !x.equals(v))`. */
  function Without<T(==)>(s: seq<T>, v: T): seq<T> {
    Filter(s, x => x != v)
  }

  /** `remove(array)`: `remove` applied to each element in array order. */
  function WithoutAll<T(==)>(s: seq<T>, vs: seq<T>): seq<T> {
    if vs == [] then s else Without(WithoutAll(s, vs[..|vs| - 1]), vs[|vs| - 1])
  }

  /** After `remove(v)`, exactly the elements other than `v` remain, in their old order;
      removing an absent value changes nothing. */
  lemma WithoutProperties<T>(s: seq<T>, v: T)
    ensures forall x :: x in Without(s, v) <==> x in s && x != v
    ensures v !in Without(s, v)
    ensures v !in s ==> Without(s, v) == s
    ensures forall a, b :: s == a + b ==> Without(s, v) == Without(a, v) + Without(b, v)
    ensures NoDuplicates(s) ==> NoDuplicates(Without(s, v))
  {
    forall x {
      FilterMembership(s, y => y != v, x);
    }
    if v !in s {
      FilterKeepsAll(s, y => y != v);
    }
    forall a, b | s == a + b {
      FilterConcat(a, b, y => y != v);
    }
    if NoDuplicates(s) {
      FilterDistinctBy(s, y => y != v, (y: T) => y);
    }
  }

  /** After `remove(array)`, exactly the elements not in the array remain. */
  lemma {:induction false} WithoutAllProperties<T>(s: seq<T>, vs: seq<T>)
    ensures forall x :: x in WithoutAll(s, vs) <==> x in s && x !in vs
    ensures NoDuplicates(s) ==> NoDuplicates(WithoutAll(s, vs))
  {
    if vs != [] {
      var init, last := vs[..|vs| - 1], vs[|vs| - 1];
      WithoutAllProperties(s, init);
      WithoutProperties(WithoutAll(s, init), last);
      assert vs == init + [last];
    }
  }

  // ------------------------------------------------------- the collection

  /** `ValueObjectSet<T>`. The source compares elements with their `equals` method; the
      model compares them with `==`, which is what `Position.equals` amounts to. */
  class ValueObjectSet<T(==)> {
    var values: seq<T>

    /** The public constructor stores the array as given: it does not deduplicate. */
    constructor (values: seq<T>)
      ensures this.values == values
    {
      this.values := values;
    }

    /** `fromArray` copies the caller's array, so later changes to either are not shared. */
    static method FromArray(a: array<T>) returns (s: ValueObjectSet<T>)
      ensures fresh(s)
      ensures s.values == a[..]
    {
      s := new ValueObjectSet(a[..]);
    }

    /** `toArray` returns a fresh copy of the elements. */
    method ToArray() returns (a: array<T>)
      ensures fresh(a)
      ensures a[..] == values
    {
      a := new T[|values|](i requires 0 <= i < |values| reads this => values[i]);
    }

    predicate Contains(v: T)
      reads this
    {
      v in values
    }

    method Add(v: T)
      modifies this
      ensures values == Added(old(values), v)
      ensures Contains(v)
      ensures old(NoDuplicates(values)) ==> NoDuplicates(values)
    {
      if !Contains(v) {
        values := values + [v];
      }
    }

    method AddAll(vs: seq<T>)
      modifies this
      ensures values == AddedAll(old(values), vs)
      ensures forall i :: 0 <= i < |vs| ==> Contains(vs[i])
    {
      var i := 0;
      while i < |vs|
        invariant 0 <= i <= |vs|
        invariant values == AddedAll(old(values), vs[..i])
      {
        assert vs[..i + 1][..i] == vs[..i];
        Add(vs[i]);
        i := i + 1;
      }
      assert vs[..i] == vs;
      AddedAllProperties(old(values), vs);
    }

    method Remove(v: T)
      modifies this
      ensures values == Without(old(values), v)
      ensures !Contains(v)
    {
      values := Filter(values, x => x != v);
      WithoutProperties(old(values), v);
    }

    method RemoveAll(vs: seq<T>)
      modifies this
      ensures values == WithoutAll(old(values), vs)
      ensures forall i :: 0 <= i < |vs| ==> !Contains(vs[i])
    {
      var i := 0;
      while i < |vs|
        invariant 0 <= i <= |vs|
        invariant values == WithoutAll(old(values), vs[..i])
      {
        assert vs[..i + 1][..i] == vs[..i];
        Remove(vs[i]);
        i := i + 1;
      }
      assert vs[..i] == vs;
      WithoutAllProperties(old(values), vs);
    }
  }
}
