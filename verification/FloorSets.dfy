/**
 Sets of floors in one 64-bit word, as the program stores and broadcasts them. The rest of this
 project works with sets of floors; this module proves that the word operations are the set
 operations, for every shaft of at most 64 floors.
*/
module FloorSets {
  import opened ElevatorTypes

  type Word = bv64

  // ---- the word operations, named so that proofs can treat them as a whole

  function Part(v: Word, w: Word): Word { v & w }

  predicate Meets(v: Word, w: Word) { Part(v, w) != 0 }

  function Join(v: Word, w: Word): Word { v | w }

  function Without(v: Word, w: Word): Word { v & !w }

  function Difference(v: Word, w: Word): Word { v ^ w }

  /** The bits of w that v does not have, as the program computes them. */
  function Added(v: Word, w: Word): Word { (v ^ w) & w }

  function Twice(p: Word): Word { p << 1 }

  /** The masks below, above and around a single bit. */
  function Lower(p: Word): Word { p - 1 }

  function Upper(p: Word): Word { !(p - 1) << 1 }

  function Around(p: Word): Word { !p }

  /** The word with only bit k set: 1 shifted left k times. */
  function Bit(k: nat): Word
    requires k < 64
  {
    if k == 0 then 1 else Twice(Bit(k - 1))
  }

  // the bits of a word at, above, below and around a bit number

  predicate On(w: Word, k: nat)
    requires k < 64
  {
    Meets(w, Bit(k))
  }

  predicate OnAbove(w: Word, k: nat)
    requires k < 64
  {
    Meets(w, Upper(Bit(k)))
  }

  predicate OnBelow(w: Word, k: nat)
    requires k < 64
  {
    Meets(w, Lower(Bit(k)))
  }

  predicate OnAround(w: Word, k: nat)
    requires k < 64
  {
    Meets(w, Around(Bit(k)))
  }

  // ---- the operations of the program

  predicate Fits(b: Bounds) { b.Valid() && b.max - b.min < 64 }

  function FloorBit(floor: int, b: Bounds): Word
    requires Fits(b) && b.Has(floor)
  {
    Bit(floor - b.min)
  }

  predicate Get(w: Word, floor: int, b: Bounds)
    requires Fits(b) && b.Has(floor)
  {
    On(w, floor - b.min)
  }

  predicate AnyHigher(w: Word, floor: int, b: Bounds)
    requires Fits(b) && b.Has(floor)
  {
    OnAbove(w, floor - b.min)
  }

  predicate AnyLower(w: Word, floor: int, b: Bounds)
    requires Fits(b) && b.Has(floor)
  {
    OnBelow(w, floor - b.min)
  }

  predicate AnyOther(w: Word, floor: int, b: Bounds)
    requires Fits(b) && b.Has(floor)
  {
    OnAround(w, floor - b.min)
  }

  predicate Consistent(w: Word, b: Bounds)
    requires Fits(b)
  {
    !AnyHigher(w, b.max, b)
  }

  predicate HasAny(w: Word) { w != 0 }

  predicate HasAdditional(v: Word, w: Word) { HasAny(Added(v, w)) }

  /** The floors that a word stands for. */
  function Floors(w: Word, b: Bounds): set<int>
    requires Fits(b)
  {
    set f | b.min <= f <= b.max && Get(w, f, b)
  }

  // ---- word algebra

  predicate PowerOfTwo(p: Word) { p != 0 && p & (p - 1) == 0 }

  // bit by bit
  lemma Distributes(u: bv64, v: bv64, w: bv64)
    ensures u & (v | w) == (u & v) | (u & w)
    ensures (v | w) & u == (v & u) | (w & u)
  {
  }

  lemma Distribute(u: Word, v: Word, w: Word)
    ensures Part(u, Join(v, w)) == Join(Part(u, v), Part(u, w))
    ensures Part(Join(v, w), u) == Join(Part(v, u), Part(w, u))
  {
    Distributes(u, v, w);
  }

  lemma JoinZero(v: Word, w: Word)
    ensures Join(v, w) == 0 <==> v == 0 && w == 0
  {
  }

  lemma MeetsJoin(u: Word, v: Word, w: Word)
    ensures Meets(u, Join(v, w)) <==> Meets(u, v) || Meets(u, w)
    ensures Meets(Join(v, w), u) <==> Meets(v, u) || Meets(w, u)
  {
    hide Part, Join;
    Distribute(u, v, w);
    JoinZero(Part(u, v), Part(u, w));
    JoinZero(Part(v, u), Part(w, u));
  }

  lemma DifferenceZero(v: Word, w: Word)
    ensures HasAny(Difference(v, w)) <==> v != w
  {
    DifferenceBack(v, w);
    NoDifference(v, w);
    hide Difference;
  }

  /** Taking the difference twice gives the word back. */
  lemma DifferenceBack(v: Word, w: Word)
    ensures Difference(Difference(v, w), w) == v
  {
  }

  lemma NoDifference(v: Word, w: Word)
    ensures Difference(w, w) == 0 && Difference(0, w) == w
  {
  }

  lemma MeetsNothing(w: Word)
    ensures !Meets(w, 0)
  {
  }

  /** The masks of a single bit and of the next one. */
  lemma Doubled(p: Word)
    requires PowerOfTwo(p) && Twice(p) != 0
    ensures PowerOfTwo(Twice(p))
    ensures Lower(Twice(p)) == Join(Lower(p), p)
    ensures Upper(p) == Join(Twice(p), Upper(Twice(p)))
  {
  }

  lemma Everything(w: Word, p: Word)
    requires PowerOfTwo(p)
    ensures Meets(w, Around(p)) <==> Meets(w, Lower(p)) || Meets(w, Upper(p))
    ensures HasAny(w) <==> Meets(w, Around(p)) || Meets(w, p)
  {
  }

  lemma AllOrNone(w: Word, p: Word)
    requires PowerOfTwo(p)
    ensures Part(w, p) == 0 || Part(w, p) == p
  {
    if w & p != 0 {
      LowestBit(p, w & p);
    }
  }

  /** The parts v and w of two words at a single bit p. */
  lemma PartsDiffer(v: Word, w: Word, p: Word)
    requires (v == 0 || v == p) && (w == 0 || w == p)
    ensures Difference(v, w) != 0 <==> (v != 0) != (w != 0)
    ensures Added(v, w) != 0 <==> w != 0 && v == 0
  {
    if v == 0 {
      FromNothing(w);
    } else if w == 0 {
      FromNothing(v);
    } else {
      FromItself(p);
    }
  }

  lemma FromNothing(w: bv64)
    ensures 0 ^ w == w && w ^ 0 == w && w & w == w && w & 0 == 0
  {
  }

  lemma FromItself(w: bv64)
    ensures w ^ w == 0 && 0 & w == 0
  {
  }

  lemma PartIs(v: Word, w: Word)
    ensures Part(v, w) == v & w
  {
  }

  lemma DifferenceIs(v: Word, w: Word)
    ensures Difference(v, w) == v ^ w
  {
  }

  lemma Separates(v: bv64, w: bv64, p: bv64)
    ensures (v ^ w) & p == (v & p) ^ (w & p)
  {
  }

  lemma DifferenceAt(v: Word, w: Word, p: Word)
    ensures Part(Difference(v, w), p) == Difference(Part(v, p), Part(w, p))
  {
    hide Part, Difference;
    DifferenceIs(v, w);
    PartIs(v, p);
    PartIs(w, p);
    PartIs(v ^ w, p);
    DifferenceIs(v & p, w & p);
    Separates(v, w, p);
  }

  lemma AddedIs(v: Word, w: Word)
    ensures Added(v, w) == Part(Difference(v, w), w)
  {
  }

  lemma PartOfPart(d: Word, w: Word, p: Word)
    ensures Part(Part(d, w), p) == Part(Part(d, p), Part(w, p))
  {
  }

  lemma PartOfDifference(v: Word, w: Word, p: Word)
    ensures Part(Difference(v, w), p) == Difference(Part(v, p), Part(w, p))
    ensures Part(Added(v, w), p) == Added(Part(v, p), Part(w, p))
  {
    hide Part, Difference, Added;
    DifferenceAt(v, w, p);
    AddedIs(v, w);
    AddedIs(Part(v, p), Part(w, p));
    PartOfPart(Difference(v, w), w, p);
  }

  lemma CombinedDifference(v: Word, w: Word, p: Word)
    requires PowerOfTwo(p)
    ensures Meets(Difference(v, w), p) <==> Meets(v, p) != Meets(w, p)
    ensures Meets(Added(v, w), p) <==> Meets(w, p) && !Meets(v, p)
  {
    hide Part, Difference, Added, PowerOfTwo;
    AllOrNone(v, p);
    AllOrNone(w, p);
    PartsDiffer(Part(v, p), Part(w, p), p);
    PartOfDifference(v, w, p);
  }

  /** Setting and clearing one bit p, seen by the bit q. */
  lemma Changed(w: Word, p: Word, q: Word)
    requires q != 0 && (p == q || !Meets(p, q))
    ensures Meets(Join(w, p), q) <==> Meets(w, q) || p == q
    ensures Meets(Without(w, p), q) <==> Meets(w, q) && p != q
  {
    hide Part, Join, Without;
    OwnPart(q);
    MeetsJoin(q, w, p);
    ClearedAt(w, p, q);
  }

  lemma OwnPart(q: Word)
    ensures Part(q, q) == q
  {
  }

  lemma ClearedAt(w: Word, p: Word, q: Word)
    ensures Part(p, q) == 0 ==> Part(Without(w, p), q) == Part(w, q)
    ensures Part(Without(w, p), p) == 0
  {
  }

  lemma PowersMeet(p: Word, q: Word)
    requires PowerOfTwo(p) && PowerOfTwo(q)
    ensures Meets(p, q) <==> p == q
  {
    if p & q != 0 {
      LowestBit(p, p & q);
      LowestBit(q, p & q);
    }
  }

  lemma LowestBit(p: Word, m: Word)
    requires PowerOfTwo(p) && m != 0 && m & p == m
    ensures m == p
  {
  }

  // ---- single bits

  function Shift4(p: Word): Word { p << 4 }

  lemma ShiftFour(p: Word)
    ensures Twice(Twice(Twice(Twice(p)))) == Shift4(p)
  {
  }

  lemma NextBit(k: nat)
    requires k + 1 < 64
    ensures Bit(k + 1) == Twice(Bit(k))
  {
  }

  lemma FourBitsOn(k: nat)
    requires k + 4 < 64
    ensures Bit(k + 4) == Shift4(Bit(k))
  {
    hide Bit, Twice, Shift4;
    NextBit(k);
    NextBit(k + 1);
    NextBit(k + 2);
    NextBit(k + 3);
    ShiftFour(Bit(k));
  }

  lemma TopBit()
    ensures Bit(63) == 0x8000_0000_0000_0000
  {
    Bit60();
    assert Bit(61) == Twice(Bit(60)) && Bit(62) == Twice(Bit(61)) && Bit(63) == Twice(Bit(62));
  }

  lemma Bit60()
    ensures Bit(60) == 0x1000_0000_0000_0000
  {
    assert Bit(0) == 1;
    hide Bit;
    FourBitsOn(0);
    FourBitsOn(4);
    FourBitsOn(8);
    FourBitsOn(12);
    FourBitsOn(16);
    FourBitsOn(20);
    FourBitsOn(24);
    FourBitsOn(28);
    FourBitsOn(32);
    FourBitsOn(36);
    FourBitsOn(40);
    FourBitsOn(44);
    FourBitsOn(48);
    FourBitsOn(52);
    FourBitsOn(56);
  }

  /** No bit is shifted out of the word before the last. */
  lemma {:induction false} BitNotZero(k: nat)
    requires k < 64
    ensures Bit(k) != 0
    decreases 64 - k
  {
    if k == 63 {
      TopBit();
    } else {
      BitNotZero(k + 1);
    }
  }

  lemma {:induction false} BitIsPowerOfTwo(k: nat)
    requires k < 64
    ensures PowerOfTwo(Bit(k))
  {
    if k > 0 {
      BitNotZero(k);
      BitIsPowerOfTwo(k - 1);
      hide PowerOfTwo, Twice;
      Doubled(Bit(k - 1));
    }
  }

  lemma StepBelow(w: Word, k: nat)
    requires 0 < k < 64
    ensures OnBelow(w, k) <==> OnBelow(w, k - 1) || On(w, k - 1)
  {
    BitNotZero(k);
    BitIsPowerOfTwo(k - 1);
    hide PowerOfTwo, Twice, Part, Meets, Lower, Join, Upper;
    Doubled(Bit(k - 1));
    MeetsJoin(w, Lower(Bit(k - 1)), Bit(k - 1));
  }

  lemma StepAbove(w: Word, k: nat)
    requires k < 63
    ensures OnAbove(w, k) <==> OnAbove(w, k + 1) || On(w, k + 1)
  {
    BitNotZero(k + 1);
    BitIsPowerOfTwo(k);
    hide PowerOfTwo, Twice, Part, Meets, Lower, Join, Upper;
    Doubled(Bit(k));
    MeetsJoin(w, Bit(k + 1), Upper(Bit(k + 1)));
  }

  lemma Ends(w: Word)
    ensures !OnBelow(w, 0) && !OnAbove(w, 63)
  {
    TopBit();
    assert Bit(0) == 1;
    hide Bit;
    assert Lower(1) == 0 && Upper(0x8000_0000_0000_0000) == 0;
    MeetsNothing(w);
  }

  lemma {:induction false} LowerBits(w: Word, k: nat)
    requires k < 64
    ensures OnBelow(w, k) <==> exists j: nat :: j < k && On(w, j)
  {
    hide On, OnBelow;
    if k == 0 {
      Ends(w);
    } else {
      LowerBits(w, k - 1);
      StepBelow(w, k);
    }
  }

  /** Up to and including bit 63. */
  lemma {:induction false} HigherBits(w: Word, k: nat)
    requires k < 64
    ensures OnAbove(w, k) <==> exists j: nat :: k < j < 64 && On(w, j)
    decreases 64 - k
  {
    hide On, OnAbove;
    if k == 63 {
      Ends(w);
    } else {
      HigherBits(w, k + 1);
      StepAbove(w, k);
    }
  }

  lemma BelowOrAbove(w: Word, k: nat)
    requires k < 64
    ensures OnAround(w, k) <==> OnBelow(w, k) || OnAbove(w, k)
    ensures HasAny(w) <==> OnAround(w, k) || On(w, k)
  {
    BitIsPowerOfTwo(k);
    hide PowerOfTwo, Part, Meets, Lower, Upper, Around, HasAny, Bit;
    Everything(w, Bit(k));
  }

  lemma OtherBits(w: Word, k: nat)
    requires k < 64
    ensures OnAround(w, k) <==> exists j: nat :: j < 64 && j != k && On(w, j)
    ensures HasAny(w) <==> exists j: nat :: j < 64 && On(w, j)
  {
    hide On, OnBelow, OnAbove, OnAround, HasAny;
    BelowOrAbove(w, k);
    LowerBits(w, k);
    HigherBits(w, k);
  }

  /** The bits below a single bit leave it out, so single bits are distinct. */
  lemma BitsAreDistinct(j: nat, k: nat)
    requires j < k < 64
    ensures Bit(j) != Bit(k)
  {
    BitIsPowerOfTwo(j);
    BitIsPowerOfTwo(k);
    hide PowerOfTwo, Part, Meets, Lower, Bit;
    OwnBit(Bit(j));
    OwnBit(Bit(k));
    assert On(Bit(j), j) && !OnBelow(Bit(k), k);
    LowerBits(Bit(k), k);
    assert !On(Bit(k), j);
  }

  lemma OwnBit(p: Word)
    requires PowerOfTwo(p)
    ensures Meets(p, p) && !Meets(p, Lower(p))
  {
    OwnPart(p);
  }

  // ---- words as sets of bit numbers

  function Bits(w: Word): set<nat> {
    set k: nat | k < 64 && On(w, k)
  }

  lemma NoBits(w: Word)
    ensures HasAny(w) <==> Bits(w) != {}
  {
    hide On, HasAny, OnAround;
    OtherBits(w, 0);
    if HasAny(w) {
      var j: nat :| j < 64 && On(w, j);
      assert j in Bits(w);
    }
    forall k <- Bits(w)
      ensures HasAny(w)
    {
      assert k < 64 && On(w, k);
    }
  }

  lemma CombineBits(v: Word, w: Word)
    ensures Bits(Join(v, w)) == Bits(v) + Bits(w)
    ensures Bits(Added(v, w)) == Bits(w) - Bits(v)
    ensures Bits(Difference(v, w)) == (Bits(v) - Bits(w)) + (Bits(w) - Bits(v))
  {
    hide Part, Meets, Bit, Join, Added, Difference, PowerOfTwo;
    forall k: nat | k < 64
      ensures On(Join(v, w), k) <==> On(v, k) || On(w, k)
      ensures On(Added(v, w), k) <==> On(w, k) && !On(v, k)
      ensures On(Difference(v, w), k) <==> On(v, k) != On(w, k)
    {
      BitIsPowerOfTwo(k);
      MeetsJoin(Bit(k), v, w);
      CombinedDifference(v, w, Bit(k));
    }
  }

  lemma SetBits(w: Word, k: nat)
    requires k < 64
    ensures Bits(Join(w, Bit(k))) == Bits(w) + {k}
    ensures Bits(Without(w, Bit(k))) == Bits(w) - {k}
  {
    hide Part, Meets, Bit, Join, Without, PowerOfTwo;
    BitIsPowerOfTwo(k);
    forall j: nat | j < 64
      ensures On(Join(w, Bit(k)), j) <==> On(w, j) || j == k
      ensures On(Without(w, Bit(k)), j) <==> On(w, j) && j != k
    {
      BitIsPowerOfTwo(j);
      BitNotZero(j);
      PowersMeet(Bit(k), Bit(j));
      if j < k {
        BitsAreDistinct(j, k);
      } else if k < j {
        BitsAreDistinct(k, j);
      }
      Changed(w, Bit(k), Bit(j));
    }
  }

  // ---- words as sets of floors

  lemma AboveInBits(w: Word, k: nat)
    requires k < 64
    ensures OnAbove(w, k) <==> exists j <- Bits(w) :: j > k
    ensures OnBelow(w, k) <==> exists j <- Bits(w) :: j < k
    ensures OnAround(w, k) <==> exists j <- Bits(w) :: j != k
  {
    hide On, OnAbove, OnBelow, OnAround;
    HigherBits(w, k);
    LowerBits(w, k);
    OtherBits(w, k);
    forall j: nat | j < 64
      ensures j in Bits(w) <==> On(w, j)
    {
    }
    assert forall j <- Bits(w) :: j < 64 && On(w, j);
  }

  /** A word is consistent exactly when no bit lies above the top floor. */
  lemma ConsistentExactly(w: Word, b: Bounds)
    requires Fits(b)
    ensures Consistent(w, b) <==> forall k <- Bits(w) :: k <= b.max - b.min
  {
    hide Bits, OnAbove;
    AboveInBits(w, b.max - b.min);
  }

  lemma FloorsAreBits(w: Word, b: Bounds)
    requires Fits(b)
    ensures forall f :: f in Floors(w, b) <==> b.Has(f) && f - b.min in Bits(w)
  {
    hide On;
  }

  lemma BitsAreFloors(w: Word, b: Bounds)
    requires Fits(b) && Consistent(w, b)
    ensures forall k <- Bits(w) :: b.min + k in Floors(w, b)
  {
    hide Bits, Floors, Consistent;
    ConsistentExactly(w, b);
    FloorsAreBits(w, b);
    forall k <- Bits(w)
      ensures b.min + k in Floors(w, b)
    {
      assert b.min + k - b.min == k;
    }
  }

  lemma MemberOfBits(w: Word, b: Bounds, k: nat)
    requires Fits(b) && Consistent(w, b) && k in Bits(w)
    ensures b.min + k in Floors(w, b)
  {
    hide Bits, Floors, Consistent;
    BitsAreFloors(w, b);
  }

  lemma MemberOfFloors(w: Word, b: Bounds, f: int)
    requires Fits(b) && f in Floors(w, b)
    ensures b.Has(f) && f - b.min in Bits(w)
  {
    hide Bits, Floors;
    FloorsAreBits(w, b);
  }

  /** Higher, lower and other bits are higher, lower and other floors. */
  lemma SidesOfFloor(w: Word, b: Bounds, floor: int)
    requires Fits(b) && b.Has(floor) && Consistent(w, b)
    ensures (exists k <- Bits(w) :: k > floor - b.min) <==> exists f <- Floors(w, b) :: f > floor
    ensures (exists k <- Bits(w) :: k < floor - b.min) <==> exists f <- Floors(w, b) :: f < floor
    ensures (exists k <- Bits(w) :: k != floor - b.min) <==> exists f <- Floors(w, b) :: f != floor
    ensures Bits(w) != {} <==> Floors(w, b) != {}
  {
    var up := Bits(w);
    var fs := Floors(w, b);
    forall k <- up
      ensures exists f <- fs :: f == b.min + k
    {
      MemberOfBits(w, b, k);
    }
    forall f <- fs
      ensures exists k <- up :: f == b.min + k
    {
      MemberOfFloors(w, b, f);
      assert f == b.min + (f - b.min);
    }
  }

  /** The queries decide what they say about the set of floors, for every word that is consistent
      with the shaft. */
  lemma QueriesAreExact(w: Word, floor: int, b: Bounds)
    requires Fits(b) && b.Has(floor) && Consistent(w, b)
    ensures Get(w, floor, b) <==> floor in Floors(w, b)
    ensures AnyHigher(w, floor, b) <==> exists f <- Floors(w, b) :: f > floor
    ensures AnyLower(w, floor, b) <==> exists f <- Floors(w, b) :: f < floor
    ensures AnyOther(w, floor, b) <==> exists f <- Floors(w, b) :: f != floor
    ensures HasAny(w) <==> Floors(w, b) != {}
  {
    hide On, OnAbove, OnBelow, OnAround, HasAny, Consistent, Bits, Floors, Get;
    GetIsExact(w, floor, b);
    AboveInBits(w, floor - b.min);
    NoBits(w);
    SidesOfFloor(w, b, floor);
  }

  lemma GetIsExact(w: Word, floor: int, b: Bounds)
    requires Fits(b) && b.Has(floor)
    ensures Get(w, floor, b) <==> floor in Floors(w, b)
  {
    hide On;
  }

  /** Two consistent words that stand for the same floors are equal. */
  lemma FloorsDetermineWord(v: Word, w: Word, b: Bounds)
    requires Fits(b) && Consistent(v, b) && Consistent(w, b) && Floors(v, b) == Floors(w, b)
    ensures v == w
  {
    hide Bits, Floors, Consistent, Difference, HasAny, Join, Added;
    BitsIncluded(v, w, b);
    BitsIncluded(w, v, b);
    SameBits(v, w);
  }

  lemma SameBits(v: Word, w: Word)
    requires Bits(v) <= Bits(w) && Bits(w) <= Bits(v)
    ensures v == w
  {
    hide Bits, Difference, HasAny, Join, Added;
    CombineBits(v, w);
    var d := Difference(v, w);
    assert Bits(d) == {};
    NoBits(d);
    assert !HasAny(d);
    DifferenceZero(v, w);
  }

  lemma BitsIncluded(v: Word, w: Word, b: Bounds)
    requires Fits(b) && Consistent(v, b) && Consistent(w, b) && Floors(v, b) <= Floors(w, b)
    ensures Bits(v) <= Bits(w)
  {
    hide Bits, Floors, Consistent;
    BitsAreFloors(v, b);
    FloorsAreBits(w, b);
    forall k <- Bits(v)
      ensures k in Bits(w)
    {
      assert b.min + k in Floors(w, b) && b.min + k - b.min == k;
    }
  }

  /** The program's test for newly pressed floors decides whether the second word has a floor that the
      first has not. */
  lemma AdditionalIsDifference(v: Word, w: Word, b: Bounds)
    requires Fits(b) && Consistent(v, b) && Consistent(w, b)
    ensures HasAdditional(v, w) <==> Floors(w, b) - Floors(v, b) != {}
  {
    hide HasAdditional, Bits, Consistent, Floors;
    if HasAdditional(v, w) {
      var f := AdditionalFloor(v, w, b);
    }
    if f :| f in Floors(w, b) - Floors(v, b) {
      NewBit(v, w, b, f);
      AdditionalBits(v, w, f - b.min);
    }
    SomeFloor(Floors(w, b) - Floors(v, b));
  }

  lemma SomeFloor(floors: set<int>)
    ensures floors == {} || exists f :: f in floors
  {
    if forall f :: f !in floors {
      assert floors == {};
    }
  }

  lemma AdditionalFloor(v: Word, w: Word, b: Bounds) returns (f: int)
    requires Fits(b) && Consistent(v, b) && Consistent(w, b) && HasAdditional(v, w)
    ensures f in Floors(w, b) - Floors(v, b)
  {
    hide Bits, HasAny, Added, Join, Difference, Consistent, Floors, On;
    NoBits(Added(v, w));
    CombineBits(v, w);
    var k: nat := SomeBit(Bits(w) - Bits(v));
    NewFloor(v, w, b, k);
    f := b.min + k;
  }

  lemma SomeBit(bits: set<nat>) returns (k: nat)
    requires bits != {}
    ensures k in bits
  {
    assert bits == {} || exists j :: j in bits;
    k :| k in bits;
  }

  lemma AdditionalBits(v: Word, w: Word, k: nat)
    requires k in Bits(w) - Bits(v)
    ensures HasAdditional(v, w)
  {
    hide Bits, HasAny, Added, Join, Difference;
    NoBits(Added(v, w));
    CombineBits(v, w);
    assert k in Bits(Added(v, w));
  }

  lemma NewFloor(v: Word, w: Word, b: Bounds, k: nat)
    requires Fits(b) && Consistent(v, b) && Consistent(w, b) && k in Bits(w) - Bits(v)
    ensures b.min + k in Floors(w, b) - Floors(v, b)
  {
    MemberOfBits(w, b, k);
    FloorIsBit(v, b, b.min + k);
    hide Bits, Consistent, Floors;
  }

  lemma NewBit(v: Word, w: Word, b: Bounds, f: int)
    requires Fits(b) && Consistent(v, b) && Consistent(w, b) && f in Floors(w, b) - Floors(v, b)
    ensures f - b.min in Bits(w) - Bits(v)
  {
    MemberOfFloors(w, b, f);
    FloorIsBit(v, b, f);
    hide Bits, Consistent, Floors;
  }

  lemma UnionFloors(v: Word, w: Word, b: Bounds)
    requires Fits(b)
    ensures Floors(Join(v, w), b) == Floors(v, b) + Floors(w, b)
    ensures Consistent(v, b) && Consistent(w, b) ==> Consistent(Join(v, w), b)
  {
    hide Bits, Floors, Consistent, Join;
    UnionConsistent(v, w, b);
    forall f
      ensures f in Floors(Join(v, w), b) <==> f in Floors(v, b) || f in Floors(w, b)
    {
      UnionAt(v, w, b, f);
    }
  }

  lemma UnionAt(v: Word, w: Word, b: Bounds, f: int)
    requires Fits(b)
    ensures f in Floors(Join(v, w), b) <==> f in Floors(v, b) || f in Floors(w, b)
  {
    if b.Has(f) {
      FloorIsBit(v, b, f);
      FloorIsBit(w, b, f);
      FloorIsBit(Join(v, w), b, f);
      hide Bits, Floors, Consistent, Join, Added, Difference;
      CombineBits(v, w);
    }
  }

  lemma FloorIsBit(w: Word, b: Bounds, f: int)
    requires Fits(b) && b.Has(f)
    ensures f in Floors(w, b) <==> f - b.min in Bits(w)
  {
    hide On;
  }

  lemma UnionConsistent(v: Word, w: Word, b: Bounds)
    requires Fits(b)
    ensures Consistent(v, b) && Consistent(w, b) ==> Consistent(Join(v, w), b)
  {
    hide Bits, Consistent, Join, Added, Difference;
    CombineBits(v, w);
    ConsistentExactly(v, b);
    ConsistentExactly(w, b);
    ConsistentExactly(Join(v, w), b);
  }

  /** Setting and clearing the bit of a floor adds and removes exactly that floor. */
  lemma SetFloor(w: Word, floor: int, b: Bounds)
    requires Fits(b) && b.Has(floor)
    ensures var u := Join(w, FloorBit(floor, b));
            Floors(u, b) == Floors(w, b) + {floor} && (Consistent(w, b) ==> Consistent(u, b))
    ensures var u := Without(w, FloorBit(floor, b));
            Floors(u, b) == Floors(w, b) - {floor} && (Consistent(w, b) ==> Consistent(u, b))
  {
    hide Bits, Floors, Consistent, Bit, Join, Without;
    var p, k := FloorBit(floor, b), floor - b.min;
    SetBits(w, k);
    FloorsAreBits(w, b);
    FloorsAreBits(Join(w, p), b);
    FloorsAreBits(Without(w, p), b);
    ConsistentExactly(w, b);
    ConsistentExactly(Join(w, p), b);
    ConsistentExactly(Without(w, p), b);
    forall f
      ensures f in Floors(Join(w, p), b) <==> f in Floors(w, b) || f == floor
      ensures f in Floors(Without(w, p), b) <==> f in Floors(w, b) && f != floor
    {
      assert f - b.min in Bits(Join(w, p)) <==> f - b.min in Bits(w) + {k};
      assert f - b.min in Bits(Without(w, p)) <==> f - b.min in Bits(w) - {k};
    }
  }

  // ---- the set object

  class FloorSet {
    var floors: Word

    constructor ()
      ensures floors == 0
    {
      floors := 0;
    }

    ghost function Contents(b: Bounds): set<int>
      requires Fits(b)
      reads this
    {
      Floors(floors, b)
    }

    /** Adds or removes a floor; answers whether it was there. */
    method Set(value: bool, floor: int, b: Bounds) returns (orig: bool)
      requires Fits(b) && b.Has(floor)
      modifies this
      ensures orig == (floor in old(Contents(b)))
      ensures Contents(b) == if value then old(Contents(b)) + {floor} else old(Contents(b)) - {floor}
      ensures old(Consistent(floors, b)) ==> Consistent(floors, b)
    {
      hide Consistent, FloorBit, On, Join, Without;
      orig := Get(floors, floor, b);
      SetFloor(floors, floor, b);
      if value {
        floors := Join(floors, FloorBit(floor, b));
      } else {
        floors := Without(floors, FloorBit(floor, b));
      }
    }

    method Reset(ghost b: Bounds)
      requires Fits(b)
      modifies this
      ensures Contents(b) == {} && Consistent(floors, b)
    {
      floors := 0;
    }

    /** Adds all floors of another set. */
    method Unite(other: Word, ghost b: Bounds)
      requires Fits(b)
      modifies this
      ensures Contents(b) == old(Contents(b)) + Floors(other, b)
      ensures old(Consistent(floors, b)) && Consistent(other, b) ==> Consistent(floors, b)
    {
      hide Consistent, Floors, Join;
      UnionFloors(floors, other, b);
      floors := Join(floors, other);
    }
  }
}
