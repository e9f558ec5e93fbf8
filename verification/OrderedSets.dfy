/**
 The in-place set operators: one walk through a sorted set and a sorted sequence side by side. A set is kept
 as the increasing sequence of its elements; erasing an element keeps the iterators to the others valid.
*/
module OrderedSets {

  /** Sorted, as the operators assume of their second operand; repetitions are allowed. */
  predicate Sorted(s: seq<int>) {
    forall i, j :: 0 <= i < j < |s| ==> s[i] <= s[j]
  }

  predicate Increasing(s: seq<int>) {
    forall i, j :: 0 <= i < j < |s| ==> s[i] < s[j]
  }

  /** A walk has dealt with a[..k], keeping in items[..ia] those elements of which being in b is `wanted`,
      and has passed b[..ib], which is smaller than all that is to come. */
  ghost predicate Walk(items: seq<int>, ia: nat, a: seq<int>, k: nat, b: seq<int>, ib: nat, wanted: bool) {
    && ia <= |items| && k <= |a| && ib <= |b|
    && items[ia..] == a[k..]
    && (forall x :: x in items[..ia] <==> x in a[..k] && (x in b) == wanted)
    && (forall i, j :: 0 <= i < ib && k <= j < |a| ==> b[i] < a[j])
  }

  lemma Keep(items: seq<int>, ia: nat, a: seq<int>, k: nat, b: seq<int>, ib: nat, wanted: bool)
    requires Walk(items, ia, a, k, b, ib, wanted) && k < |a| && (a[k] in b) == wanted
    ensures Walk(items, ia + 1, a, k + 1, b, ib, wanted)
  {
    assert items[ia] == items[ia..][0] == a[k];
    assert items[..ia + 1] == items[..ia] + [items[ia]] && a[..k + 1] == a[..k] + [a[k]];
    assert items[ia + 1..] == items[ia..][1..] && a[k + 1..] == a[k..][1..];
  }

  lemma Drop(items: seq<int>, now: seq<int>, ia: nat, a: seq<int>, k: nat, b: seq<int>, ib: nat, wanted: bool)
    requires Walk(items, ia, a, k, b, ib, wanted) && k < |a| && (a[k] in b) != wanted
    requires ia < |items| && now == items[..ia] + items[ia + 1..]
    ensures Walk(now, ia, a, k + 1, b, ib, wanted)
  {
    assert items[ia] == items[ia..][0] == a[k];
    assert now[..ia] == items[..ia] && a[..k + 1] == a[..k] + [a[k]];
    assert now[ia..] == items[ia + 1..] == items[ia..][1..] && a[k + 1..] == a[k..][1..];
  }

  lemma Pass(items: seq<int>, ia: nat, a: seq<int>, k: nat, b: seq<int>, ib: nat, wanted: bool)
    requires Walk(items, ia, a, k, b, ib, wanted) && ib < |b|
    requires forall j :: k <= j < |a| ==> b[ib] < a[j]
    ensures Walk(items, ia, a, k, b, ib + 1, wanted)
  {
  }

  /** What has been passed is smaller, and what is to come in b is larger. */
  lemma NotThere(items: seq<int>, ia: nat, a: seq<int>, k: nat, b: seq<int>, ib: nat, wanted: bool)
    requires Walk(items, ia, a, k, b, ib, wanted) && Sorted(b) && k < |a|
    requires ib < |b| ==> a[k] < b[ib]
    ensures a[k] !in b
  {
  }

  lemma WalkEnds(items: seq<int>, ia: nat, a: seq<int>, k: nat, b: seq<int>, ib: nat, wanted: bool)
    requires Walk(items, ia, a, k, b, ib, wanted) && (ia == |items| || (ib == |b| && !wanted))
    ensures forall x :: x in items <==> x in a && (x in b) == wanted
  {
    assert items == items[..ia] + items[ia..] && a == a[..k] + a[k..];
    forall x | x in items[ia..]
      ensures ib == |b| ==> x !in b
    {
      assert x in a[k..];
    }
  }

  class OrderedSet {
    var items: seq<int>

    ghost predicate Valid()
      reads this
    {
      Increasing(items)
    }

    constructor ()
      ensures Valid() && items == []
    {
      items := [];
    }

    method Erase(i: nat)
      requires Valid() && i < |items|
      modifies this
      ensures Valid() && items == old(items)[..i] + old(items)[i + 1..]
    {
      items := items[..i] + items[i + 1..];
    }

    /** The operator &=, for a sorted sequence. */
    method IntersectWith(b: seq<int>)
      requires Valid() && Sorted(b)
      modifies this
      ensures Valid()
      ensures forall x :: x in items <==> x in old(items) && x in b
    {
      if b == [] {
        items := [];
        return;
      }
      ghost var a := items;
      var ia, ib: nat := 0, 0;
      ghost var k := 0;
      while ia < |items|
        invariant Valid() && Walk(items, ia, a, k, b, ib, true)
        decreases |items| - ia, |b| - ib
      {
        AtCursor(items, ia, a, k, b, ib, true);
        if ib < |b| && b[ib] < items[ia] {
          Pass(items, ia, a, k, b, ib, true);
          ib := ib + 1;
        } else if ib == |b| || items[ia] != b[ib] {
          NotThere(items, ia, a, k, b, ib, true);
          ghost var before := items;
          Erase(ia);
          Drop(before, items, ia, a, k, b, ib, true);
          k := k + 1;
        } else {
          Keep(items, ia, a, k, b, ib, true);
          Pass(items, ia + 1, a, k + 1, b, ib, true);
          ia, ib, k := ia + 1, ib + 1, k + 1;
        }
      }
      WalkEnds(items, ia, a, k, b, ib, true);
    }

    /** The operator -=, for a sorted sequence. */
    method Subtract(b: seq<int>)
      requires Valid() && Sorted(b)
      modifies this
      ensures Valid()
      ensures forall x :: x in items <==> x in old(items) && x !in b
    {
      ghost var a := items;
      var ia, ib: nat := 0, 0;
      ghost var k := 0;
      while ia < |items| && ib < |b|
        invariant Valid() && Walk(items, ia, a, k, b, ib, false)
        decreases |items| - ia, |b| - ib
      {
        AtCursor(items, ia, a, k, b, ib, false);
        if items[ia] == b[ib] {
          ghost var before := items;
          Erase(ia);
          Drop(before, items, ia, a, k, b, ib, false);
          Pass(items, ia, a, k + 1, b, ib, false);
          ib, k := ib + 1, k + 1;
        } else if items[ia] < b[ib] {
          NotThere(items, ia, a, k, b, ib, false);
          Keep(items, ia, a, k, b, ib, false);
          ia, k := ia + 1, k + 1;
        } else {
          Pass(items, ia, a, k, b, ib, false);
          ib := ib + 1;
        }
      }
      WalkEnds(items, ia, a, k, b, ib, false);
    }

    /** The operator <= on two sets. */
    method SubsetOf(b: OrderedSet) returns (r: bool)
      requires Valid() && b.Valid()
      ensures r <==> forall x :: x in items ==> x in b.items
    {
      var x, y := 0, 0;
      while y < |b.items|
        invariant 0 <= x <= |items| && 0 <= y <= |b.items|
        invariant forall i :: 0 <= i < x ==> items[i] in b.items
        invariant forall i, j :: 0 <= j < y && x <= i < |items| ==> b.items[j] < items[i]
      {
        if x == |items| {
          assert forall v :: v in items ==> exists i :: 0 <= i < x && items[i] == v;
          return true;
        } else if items[x] == b.items[y] {
          x := x + 1;
        } else if items[x] < b.items[y] {
          assert items[x] in items && items[x] !in b.items;
          return false;
        }
        y := y + 1;
      }
      if x < |items| {
        assert items[x] !in b.items;
        assert items[x] in items;
      } else {
        assert forall v :: v in items ==> exists i :: 0 <= i < x && items[i] == v;
      }
      return x == |items|;
    }
  }

  lemma AtCursor(items: seq<int>, ia: nat, a: seq<int>, k: nat, b: seq<int>, ib: nat, wanted: bool)
    requires Walk(items, ia, a, k, b, ib, wanted) && ia < |items| && Increasing(items)
    ensures k < |a| && items[ia] == a[k] && forall j :: k < j < |a| ==> a[k] < a[j]
  {
    assert items[ia] == items[ia..][0] == a[k];
    forall j | k < j < |a| ensures a[k] < a[j] {
      assert a[j] == a[k..][j - k] == items[ia..][j - k];
    }
  }

  /** A set has one increasing sequence, so what the operators leave is determined by its elements. */
  lemma {:induction false} IncreasingUnique(s: seq<int>, t: seq<int>)
    requires Increasing(s) && Increasing(t) && forall x :: x in s <==> x in t
    ensures s == t
  {
    assert t == [] || t[0] in t;
    if s != [] {
      assert s[0] in s;
      var i :| 0 <= i < |t| && t[i] == s[0];
      assert t[0] in s;
      var j :| 0 <= j < |s| && s[j] == t[0];
      assert s[0] == t[0];
      forall x ensures x in s[1..] <==> x in t[1..] {
        assert x in s[1..] <==> x in s && x != s[0];
        assert x in t[1..] <==> x in t && x != t[0];
      }
      IncreasingUnique(s[1..], t[1..]);
    }
  }
}
