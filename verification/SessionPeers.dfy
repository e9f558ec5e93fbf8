/** Ranks in a sorted set of addresses: what an elevator's id is. */
module SessionPeers {

  /** How many peers come before this address. */
  function Rank(peers: set<int>, a: int): nat {
    |set p | p in peers && p < a|
  }

  lemma SmallerSet(a: set<int>, b: set<int>)
    requires a <= b
    ensures |a| <= |b|
    ensures a != b ==> |a| < |b|
  {
    assert b == a + (b - a);
    if a != b {
      assert b - a != {};
    }
  }

  /** A subset that is as large is the whole set. */
  lemma FullSubset(a: set<int>, b: set<int>)
    requires a <= b && |a| == |b|
    ensures a == b
  {
    if a != b {
      SmallerSet(a, b);
    }
  }

  /** Ranks are in range, and order the peers as their addresses do. */
  lemma RanksOrder(peers: set<int>, a: int, b: int)
    requires a in peers && b in peers
    ensures Rank(peers, a) < |peers|
    ensures a < b ==> Rank(peers, a) < Rank(peers, b)
  {
    SmallerSet((set p | p in peers && p < a), peers);
    assert a !in (set p | p in peers && p < a);
    if a < b {
      var below := set p | p in peers && p < a;
      var more := set p | p in peers && p < b;
      assert a in more && a !in below;
      SmallerSet(below, more);
    }
  }

  lemma RanksDistinct(peers: set<int>, a: int, b: int)
    requires a in peers && b in peers && a != b
    ensures Rank(peers, a) != Rank(peers, b)
  {
    RanksOrder(peers, a, b);
    RanksOrder(peers, b, a);
  }

  lemma Inhabited(s: set<int>)
    ensures s == {} || exists x :: x in s
  {
    if forall x :: x !in s {
      assert s == {};
    }
  }

  /** The address that a sorted set starts with. */
  method First(s: set<int>) returns (m: int)
    requires s != {}
    ensures m in s && forall x :: x in s ==> m <= x
  {
    Inhabited(s);
    m :| m in s;
    var rest := s - {m};
    while rest != {}
      invariant m in s && rest <= s
      invariant forall x :: x in s ==> x in rest || m <= x
      decreases |rest|
    {
      Inhabited(rest);
      var x :| x in rest;
      m := if x < m then x else m;
      rest := rest - {x};
    }
  }

  ghost function Least(s: set<int>): (m: int)
    requires s != {}
    ensures m in s && forall x :: x in s ==> m <= x
    decreases |s|
  {
    Inhabited(s);
    var x :| x in s;
    var rest := s - {x};
    assert forall z :: z in s ==> z in rest || z == x;
    if rest == {} then x else var y := Least(rest); if x < y then x else y
  }

  /** Every rank is taken. */
  lemma {:induction false} RankTaken(peers: set<int>, i: nat) returns (a: int)
    requires i < |peers|
    ensures a in peers && Rank(peers, a) == i
    decreases i
  {
    if i == 0 {
      a := Least(peers);
      assert (set p | p in peers && p < a) == {};
    } else {
      var b := RankTaken(peers, i - 1);
      var below := set p | p in peers && p < b;
      var above := set p | p in peers && b < p;
      assert peers == below + {b} + above;
      assert above != {};
      a := Least(above);
      assert (set p | p in peers && p < a) == below + {b};
    }
  }
}
