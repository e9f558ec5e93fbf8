/** Packets: a type signature, a size, and the serialized value; and the methods that fill and read them. */
module Packets {
  import opened ElevatorTypes
  import opened Serialization
  import opened WireTypes

  const SIGNED_INT := Width(INT, true)
  const OFFSET: nat := 2 * INT

  datatype Received = Got(value: Value) | WrongType | Failed

  /** Header and data of a packet. */
  function Layout(tag: int, t: Type, v: Value): seq<Byte>
    requires HasType(t, v)
  {
    ToBytes(tag, INT) + ToBytes(|Encode(t, v)|, INT) + Encode(t, v)
  }

  /** The size of a packet is computed in an int. Nothing where that is not the size of the layout: a
      negative size is refused, one that is too small would be written behind. */
  function ToPacket(tag: int, t: Type, v: Value): Maybe<seq<Byte>>
    requires HasType(t, v)
  {
    if SIGNED_INT.Wrap(OFFSET + |Encode(t, v)|) == OFFSET + |Encode(t, v)| then Just(Layout(tag, t, v)) else Nothing
  }

  /** Failed where the source reads outside the packet or its size assertion fails. */
  function FromPacket(tag: int, t: Type, p: seq<Byte>): Received {
    if |p| < OFFSET then Failed
    else
      var signature, size := SIGNED_INT.Wrap(FromBytes(p[..INT])), SIGNED_INT.Wrap(FromBytes(p[INT..OFFSET]));
      if size < 0 || OFFSET + size > |p| then Failed
      else if tag != signature then WrongType
      else match Decode(t, p[OFFSET..OFFSET + size])
        case Nothing => Failed
        case Just((v, _)) => if size == Size(t, v) then Got(v) else Failed
  }

  lemma HeaderBack(tag: int, t: Type, v: Value)
    requires HasType(t, v) && SIGNED_INT.Has(tag)
    ensures var p := Layout(tag, t, v);
            && |p| == OFFSET + |Encode(t, v)| && p[OFFSET..] == Encode(t, v)
            && SIGNED_INT.Wrap(FromBytes(p[..INT])) == tag
            && SIGNED_INT.Wrap(FromBytes(p[INT..OFFSET])) == SIGNED_INT.Wrap(|Encode(t, v)|)
  {
    var p, n := Layout(tag, t, v), |Encode(t, v)|;
    assert p[..INT] == ToBytes(tag, INT) && p[INT..OFFSET] == ToBytes(n, INT);
    BytesModulo(tag, INT);
    BytesModulo(n, INT);
    WrapModulo(SIGNED_INT, tag);
    WrapModulo(SIGNED_INT, n);
    WrapKeeps(SIGNED_INT, tag);
  }

  lemma SizeKept(n: nat)
    ensures SIGNED_INT.Wrap(n) == n <==> n <= INT_MAX
  {
    assert Power(INT) == 0x1_0000_0000;
    if n <= INT_MAX {
      WrapKeeps(SIGNED_INT, n);
    } else {
      WrapHas(SIGNED_INT, n);
    }
  }

  /** A value is packed if and only if header and data together have the size of an int. */
  lemma PackedIff(tag: int, t: Type, v: Value)
    requires HasType(t, v)
    ensures ToPacket(tag, t, v).Just? <==> Size(t, v) <= INT_MAX - OFFSET
    ensures ToPacket(tag, t, v).Just? ==>
              ToPacket(tag, t, v).value == ToBytes(tag, 4) + ToBytes(Size(t, v), 4) + Encode(t, v)
  {
    SizeIsLength(t, v);
    SizeKept(OFFSET + |Encode(t, v)|);
    hide Encode, Size, HasType, Layout, Width.Wrap;
  }

  /** A packet is made and brings the value back if and only if its converted fields fit and its size, with
      the header, is that of an int. */
  lemma PacketRoundTripIff(tag: int, t: Type, v: Value)
    requires t.Valid() && HasType(t, v) && SIGNED_INT.Has(tag)
    ensures var p := ToPacket(tag, t, v);
            p.Just? && FromPacket(tag, t, p.value) == Got(v) <==> Fits(t, v) && Size(t, v) <= INT_MAX - OFFSET
  {
    PackedIff(tag, t, v);
    hide Decode, Encode, Fits, Size, HasType, ToPacket, Layout, FromPacket, Narrow;
    if Size(t, v) <= INT_MAX - OFFSET {
      LayoutBack(tag, t, v);
      FaithfulIffFits(t, v, []);
      ReadBack(t, v, []);
    }
  }

  /** What is read from the layout of a packet. */
  lemma LayoutBack(tag: int, t: Type, v: Value)
    requires t.Valid() && HasType(t, v) && SIGNED_INT.Has(tag) && Size(t, v) <= INT_MAX
    ensures FromPacket(tag, t, Layout(tag, t, v))
         == if Size(t, Narrow(t, v)) == Size(t, v) then Got(Narrow(t, v)) else Failed
  {
    HeaderBack(tag, t, v);
    SizeIsLength(t, v);
    SizeKept(|Encode(t, v)|);
    ReadBack(t, v, []);
    hide Decode, Encode, Size, HasType, Power, FromBytes, ToBytes, Layout, Narrow, Width.Wrap;
    var p, n := Layout(tag, t, v), |Encode(t, v)|;
    assert p[OFFSET..OFFSET + n] == Encode(t, v) + [];
  }

  /** A packet of another type, once made, is recognised as such. */
  lemma OtherTypeIsRefused(tag: int, other: int, t: Type, u: Type, v: Value)
    requires HasType(t, v) && SIGNED_INT.Has(tag) && tag != other
    ensures ToPacket(tag, t, v).Just? ==> FromPacket(other, u, ToPacket(tag, t, v).value) == WrongType
  {
    PackedIff(tag, t, v);
    HeaderBack(tag, t, v);
    SizeIsLength(t, v);
    SizeKept(|Encode(t, v)|);
    hide Encode, Size, HasType, ToPacket, Layout, Decode, Width.Wrap;
  }

  // ---- the types of the program

  const BOOL := Fundamental(Width(1, false))
  const INTEGER := Fundamental(SIGNED_INT)
  const ENUM := Enum(SIGNED_INT)
  const FLOORS := User([Fundamental(Width(8, false))])

  /** An elevator state keeps its timestamp in a long, but its tuple has an int for it. */
  const STATE := User([INTEGER, Converted(Width(LONG, true), SIGNED_INT), INTEGER, ENUM, BOOL, BOOL,
                       FLOORS, FLOORS, FLOORS])

  /** So a state survives the network if and only if its timestamp, in milliseconds, is that of an int. */
  lemma StateIsSentIff(v: Value, suffix: seq<Byte>)
    requires HasType(STATE, v)
    ensures |v.items| == 9 && v.items[1].Number?
    ensures Decode(STATE, Encode(STATE, v) + suffix) == Just((v, suffix)) <==> INT_MIN <= v.items[1].n <= INT_MAX
  {
    StateFits(v);
    FaithfulIffFits(STATE, v, suffix);
    hide Decode, Encode, Fits;
  }

  lemma StateFits(v: Value)
    requires HasType(STATE, v)
    ensures STATE.Valid() && |v.items| == 9 && v.items[1].Number?
    ensures Fits(STATE, v) <==> INT_MIN <= v.items[1].n <= INT_MAX
  {
    assert Power(INT) == 0x1_0000_0000;
    assert HasType(STATE.fields[1], v.items[1]);
    forall k | k in {6, 7, 8} ensures Fits(STATE.fields[k], v.items[k]) {
      assert HasType(FLOORS, v.items[k]);
    }
    assert Fits(STATE.fields[1], v.items[1]) <==> INT_MIN <= v.items[1].n <= INT_MAX;
    assert forall i :: 0 <= i < 9 && i != 1 ==> Fits(STATE.fields[i], v.items[i]);
  }
}
