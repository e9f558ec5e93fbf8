/** Serialization, as a function of type and value, and what reading back gives. */
module Serialization {
  import opened ElevatorTypes
  import opened WireTypes

  // ---- writing

  function Encode(t: Type, v: Value): seq<Byte>
    requires HasType(t, v)
    decreases t, 1
  {
    match t
    case Fundamental(w) => ToBytes(v.n, w.bytes)
    case Enum(w) => ToBytes(v.n, w.bytes)
    case Converted(_, sent) => ToBytes(v.n, sent.bytes)
    case Container(e, _) => ToBytes(|v.items|, LONG) + EncodeEach(e, v.items)
    case Tuple(ts) => EncodeAll(ts, v.items)
    case User(ts) => EncodeAll(ts, v.items)
  }

  function EncodeEach(e: Type, vs: seq<Value>): seq<Byte>
    requires forall i :: 0 <= i < |vs| ==> HasType(e, vs[i])
    decreases e, 2, |vs|
  {
    if vs == [] then [] else EncodeEach(e, vs[..|vs| - 1]) + Encode(e, vs[|vs| - 1])
  }

  function EncodeAll(ts: seq<Type>, vs: seq<Value>): seq<Byte>
    requires HaveTypes(ts, vs)
    decreases ts, 0
  {
    if ts == [] then [] else Encode(ts[0], vs[0]) + EncodeAll(ts[1..], vs[1..])
  }

  // ---- reading

  /** A value and the bytes after it; Nothing when the bytes run out. */
  function Decode(t: Type, b: seq<Byte>): Maybe<(Value, seq<Byte>)>
    decreases t, 1
  {
    match t
    case Fundamental(w) => DecodeNumber(w, b)
    case Enum(w) => DecodeNumber(w, b)
    case Converted(stored, sent) =>
      (match DecodeNumber(sent, b)
       case Just((v, rest)) => Just((Number(stored.Wrap(v.n)), rest))
       case Nothing => Nothing)
    case Container(e, ordered) =>
      (match DecodeNumber(Width(LONG, true), b)
       case Just((count, rest)) =>
         (match DecodeEach(e, if count.n < 0 then 0 else count.n, rest)
          case Just((vs, after)) => Just((List(if ordered then Collect(vs) else vs), after))
          case Nothing => Nothing)
       case Nothing => Nothing)
    case Tuple(ts) => DecodeTuple(ts, b)
    case User(ts) => DecodeTuple(ts, b)
  }

  function DecodeNumber(w: Width, b: seq<Byte>): (r: Maybe<(Value, seq<Byte>)>)
    ensures r.Just? ==> r.value.0.Number?
  {
    if |b| < w.bytes then Nothing
    else Just((Number(w.Wrap(FromBytes(b[..w.bytes]))), b[w.bytes..]))
  }

  function DecodeEach(e: Type, count: nat, b: seq<Byte>): Maybe<(seq<Value>, seq<Byte>)>
    decreases e, 2, count
  {
    if count == 0 then Just(([], b))
    else match DecodeEach(e, count - 1, b)
      case Nothing => Nothing
      case Just((vs, rest)) =>
        match Decode(e, rest)
        case Just((v, after)) => Just((vs + [v], after))
        case Nothing => Nothing
  }

  function DecodeTuple(ts: seq<Type>, b: seq<Byte>): Maybe<(Value, seq<Byte>)>
    decreases ts, 1
  {
    match DecodeAll(ts, b)
    case Just((vs, rest)) => Just((List(vs), rest))
    case Nothing => Nothing
  }

  function DecodeAll(ts: seq<Type>, b: seq<Byte>): Maybe<(seq<Value>, seq<Byte>)>
    decreases ts, 0
  {
    if ts == [] then Just(([], b))
    else match Decode(ts[0], b)
      case Nothing => Nothing
      case Just((v, rest)) =>
        match DecodeAll(ts[1..], rest)
        case Just((vs, after)) => Just(([v] + vs, after))
        case Nothing => Nothing
  }

  /** A set built from a range: elements go to their places, repeated ones are dropped. */
  function Insert(s: seq<Value>, x: Value): seq<Value> {
    if s == [] || Less(s[|s| - 1], x) then s + [x]
    else if Less(x, s[|s| - 1]) then Insert(s[..|s| - 1], x) + [s[|s| - 1]]
    else s
  }

  function Collect(vs: seq<Value>): seq<Value> {
    if vs == [] then [] else Insert(Collect(vs[..|vs| - 1]), vs[|vs| - 1])
  }

  // ---- what reading back gives

  /** The value after its conversions to the wire and back. */
  function Narrow(t: Type, v: Value): Value
    requires HasType(t, v)
    decreases t, 1
  {
    match t
    case Fundamental(_) => v
    case Enum(_) => v
    case Converted(stored, sent) => Number(stored.Wrap(sent.Wrap(v.n)))
    case Container(e, ordered) =>
      var vs := NarrowEach(e, v.items);
      List(if ordered then Collect(vs) else vs)
    case Tuple(ts) => List(NarrowAll(ts, v.items))
    case User(ts) => List(NarrowAll(ts, v.items))
  }

  function NarrowEach(e: Type, vs: seq<Value>): seq<Value>
    requires forall i :: 0 <= i < |vs| ==> HasType(e, vs[i])
    decreases e, 2, |vs|
  {
    if vs == [] then [] else NarrowEach(e, vs[..|vs| - 1]) + [Narrow(e, vs[|vs| - 1])]
  }

  function NarrowAll(ts: seq<Type>, vs: seq<Value>): seq<Value>
    requires HaveTypes(ts, vs)
    decreases ts, 0
  {
    if ts == [] then [] else [Narrow(ts[0], vs[0])] + NarrowAll(ts[1..], vs[1..])
  }

  lemma NumberBack(w: Width, n: int, suffix: seq<Byte>)
    ensures DecodeNumber(w, ToBytes(n, w.bytes) + suffix) == Just((Number(w.Wrap(n)), suffix))
  {
    var b := ToBytes(n, w.bytes);
    assert (b + suffix)[..w.bytes] == b && (b + suffix)[w.bytes..] == suffix;
    BytesModulo(n, w.bytes);
    WrapModulo(w, n);
  }

  lemma WrapModulo(w: Width, n: int)
    ensures w.Wrap(n % Power(w.bytes)) == w.Wrap(n)
  {
    hide Power;
    Remainder(n % Power(w.bytes), Power(w.bytes), 0, n % Power(w.bytes));
  }

  /** For every type and every value of it: reading what was written, with anything behind it, gives the value
      as its conversions leave it, and exactly what was behind it. */
  lemma {:induction false} ReadBack(t: Type, v: Value, suffix: seq<Byte>)
    requires t.Valid() && HasType(t, v)
    ensures Decode(t, Encode(t, v) + suffix) == Just((Narrow(t, v), suffix))
    decreases t, 1
  {
    match t
    case Fundamental(w) => NumberBack(w, v.n, suffix); WrapKeeps(w, v.n);
    case Enum(w) => NumberBack(w, v.n, suffix); WrapKeeps(w, v.n);
    case Converted(_, sent) => NumberBack(sent, v.n, suffix);
    case Container(e, _) =>
      var body := EncodeEach(e, v.items);
      var long := Width(LONG, true);
      assert Encode(t, v) + suffix == ToBytes(|v.items|, LONG) + (body + suffix);
      NumberBack(long, |v.items|, body + suffix);
      WrapKeeps(long, |v.items|);
      ReadBackEach(e, v.items, suffix);
    case Tuple(ts) => ReadBackAll(ts, v.items, suffix);
    case User(ts) => ReadBackAll(ts, v.items, suffix);
  }

  lemma {:induction false} ReadBackEach(e: Type, vs: seq<Value>, suffix: seq<Byte>)
    requires e.Valid() && forall i :: 0 <= i < |vs| ==> HasType(e, vs[i])
    ensures DecodeEach(e, |vs|, EncodeEach(e, vs) + suffix) == Just((NarrowEach(e, vs), suffix))
    decreases e, 2, |vs|
  {
    if vs == [] {
      assert EncodeEach(e, vs) + suffix == suffix;
    } else {
      hide HasType, Type.Valid, Encode, Decode, Narrow, EncodeEach, DecodeEach, NarrowEach;
      var n := |vs| - 1;
      var last := Encode(e, vs[n]);
      EachUnfolded(e, vs, suffix);
      ReadBackEach(e, vs[..n], last + suffix);
      ReadBack(e, vs[n], suffix);
      DecodeEachStep(e, n, EncodeEach(e, vs) + suffix, NarrowEach(e, vs[..n]), last + suffix, Narrow(e, vs[n]), suffix);
    }
  }

  lemma EachUnfolded(e: Type, vs: seq<Value>, suffix: seq<Byte>)
    requires vs != [] && forall i :: 0 <= i < |vs| ==> HasType(e, vs[i])
    ensures var n := |vs| - 1;
            && EncodeEach(e, vs) + suffix == EncodeEach(e, vs[..n]) + (Encode(e, vs[n]) + suffix)
            && NarrowEach(e, vs) == NarrowEach(e, vs[..n]) + [Narrow(e, vs[n])]
  {
    hide HasType, Encode, Narrow;
  }

  lemma DecodeEachStep(e: Type, n: nat, b: seq<Byte>, vs: seq<Value>, rest: seq<Byte>, v: Value, after: seq<Byte>)
    requires DecodeEach(e, n, b) == Just((vs, rest)) && Decode(e, rest) == Just((v, after))
    ensures DecodeEach(e, n + 1, b) == Just((vs + [v], after))
  {
    hide Decode;
  }

  lemma {:induction false} ReadBackAll(ts: seq<Type>, vs: seq<Value>, suffix: seq<Byte>)
    requires (forall i :: 0 <= i < |ts| ==> ts[i].Valid()) && HaveTypes(ts, vs)
    ensures DecodeAll(ts, EncodeAll(ts, vs) + suffix) == Just((NarrowAll(ts, vs), suffix))
    decreases ts, 0
  {
    if ts == [] {
      assert EncodeAll(ts, vs) + suffix == suffix;
    } else {
      var first, rest := Encode(ts[0], vs[0]), EncodeAll(ts[1..], vs[1..]);
      assert EncodeAll(ts, vs) + suffix == first + (rest + suffix);
      ReadBack(ts[0], vs[0], rest + suffix);
      ReadBackAll(ts[1..], vs[1..], suffix);
    }
  }

  // ---- sizes

  /** The size as the source computes it before writing. */
  function Size(t: Type, v: Value): int
    decreases t, 1
  {
    match t
    case Fundamental(w) => w.bytes
    case Enum(w) => w.bytes
    case Converted(_, sent) => sent.bytes
    case Container(e, _) => if v.List? then SizeEach(LONG, e, v.items) else 0
    case Tuple(ts) => if v.List? && |v.items| == |ts| then SizeFrom(0, ts, v.items) else 0
    case User(ts) => if v.List? && |v.items| == |ts| then SizeFrom(0, ts, v.items) else 0
  }

  function SizeEach(overhead: int, e: Type, vs: seq<Value>): int
    decreases e, 2, |vs|
  {
    if vs == [] then overhead else SizeEach(overhead, e, vs[..|vs| - 1]) + Size(e, vs[|vs| - 1])
  }

  function SizeFrom(accum: int, ts: seq<Type>, vs: seq<Value>): int
    requires |ts| == |vs|
    decreases ts, 0
  {
    if ts == [] then accum else SizeFrom(accum + Size(ts[0], vs[0]), ts[1..], vs[1..])
  }

  /** The size is the number of bytes written. */
  lemma {:induction false} SizeIsLength(t: Type, v: Value)
    requires HasType(t, v)
    ensures Size(t, v) == |Encode(t, v)|
    decreases t, 1
  {
    match t
    case Container(e, _) => SizeEachIsLength(e, v.items);
    case Tuple(ts) => SizeFromIsLength(0, ts, v.items);
    case User(ts) => SizeFromIsLength(0, ts, v.items);
    case _ =>
  }

  lemma {:induction false} SizeEachIsLength(e: Type, vs: seq<Value>)
    requires forall i :: 0 <= i < |vs| ==> HasType(e, vs[i])
    ensures SizeEach(LONG, e, vs) == LONG + |EncodeEach(e, vs)|
    decreases e, 2, |vs|
  {
    if vs != [] {
      SizeEachIsLength(e, vs[..|vs| - 1]);
      SizeIsLength(e, vs[|vs| - 1]);
    }
  }

  lemma {:induction false} SizeFromIsLength(accum: int, ts: seq<Type>, vs: seq<Value>)
    requires HaveTypes(ts, vs)
    ensures SizeFrom(accum, ts, vs) == accum + |EncodeAll(ts, vs)|
    decreases ts, 0
  {
    if ts != [] {
      SizeIsLength(ts[0], vs[0]);
      SizeFromIsLength(accum + Size(ts[0], vs[0]), ts[1..], vs[1..]);
    }
  }

  // ---- when the conversions change nothing

  /** Every converted field fits the narrower type. */
  predicate Fits(t: Type, v: Value)
    requires HasType(t, v)
  {
    match t
    case Fundamental(_) => true
    case Enum(_) => true
    case Converted(_, sent) => sent.Has(v.n)
    case Container(e, _) => forall i :: 0 <= i < |v.items| ==> Fits(e, v.items[i])
    case Tuple(ts) => AllFit(ts, v.items)
    case User(ts) => AllFit(ts, v.items)
  }

  predicate AllFit(ts: seq<Type>, vs: seq<Value>)
    requires HaveTypes(ts, vs)
  {
    forall i :: 0 <= i < |ts| ==> Fits(ts[i], vs[i])
  }

  lemma {:induction false} CollectIncreasing(vs: seq<Value>)
    requires Increasing(vs)
    ensures Collect(vs) == vs
  {
    if vs != [] {
      CollectIncreasing(vs[..|vs| - 1]);
    }
  }

  /** A type is sent faithfully exactly for the values whose converted fields fit. */
  lemma {:induction false} NarrowKeepsWhatFits(t: Type, v: Value)
    requires t.Valid() && HasType(t, v)
    ensures Fits(t, v) ==> Narrow(t, v) == v
    decreases t, 1
  {
    match t
    case Converted(stored, sent) =>
      if sent.Has(v.n) {
        WrapKeeps(sent, v.n);
        WrapKeeps(stored, v.n);
      }
    case Container(e, ordered) =>
      if Fits(t, v) {
        NarrowEachKeeps(e, v.items);
        if ordered {
          CollectIncreasing(v.items);
        }
      }
    case Tuple(ts) => NarrowAllKeeps(ts, v.items);
    case User(ts) => NarrowAllKeeps(ts, v.items);
    case _ =>
  }

  lemma {:induction false} NarrowEachKeeps(e: Type, vs: seq<Value>)
    requires e.Valid() && forall i :: 0 <= i < |vs| ==> HasType(e, vs[i]) && Fits(e, vs[i])
    ensures NarrowEach(e, vs) == vs
    decreases e, 2, |vs|
  {
    if vs != [] {
      hide Fits, HasType, Narrow, Type.Valid;
      var n := |vs| - 1;
      NarrowEachKeeps(e, vs[..n]);
      NarrowKeepsWhatFits(e, vs[n]);
      assert NarrowEach(e, vs) == NarrowEach(e, vs[..n]) + [Narrow(e, vs[n])];
      assert vs == vs[..n] + [vs[n]];
    }
  }

  lemma {:induction false} NarrowAllKeeps(ts: seq<Type>, vs: seq<Value>)
    requires (forall i :: 0 <= i < |ts| ==> ts[i].Valid()) && HaveTypes(ts, vs)
    ensures AllFit(ts, vs) ==> NarrowAll(ts, vs) == vs
    decreases ts, 0
  {
    if ts != [] {
      NarrowKeepsWhatFits(ts[0], vs[0]);
      NarrowAllKeeps(ts[1..], vs[1..]);
      if AllFit(ts, vs) {
        forall i | 0 <= i < |ts[1..]| ensures Fits(ts[1..][i], vs[1..][i]) {
          assert Fits(ts[i + 1], vs[i + 1]);
        }
      }
    }
  }

  lemma {:induction false} InsertMembers(s: seq<Value>, x: Value)
    ensures forall y :: y in Insert(s, x) ==> y in s || y == x
  {
    if s != [] && !Less(s[|s| - 1], x) && Less(x, s[|s| - 1]) {
      InsertMembers(s[..|s| - 1], x);
    }
  }

  lemma {:induction false} CollectMembers(vs: seq<Value>)
    ensures forall y :: y in Collect(vs) ==> y in vs
  {
    if vs != [] {
      var n := |vs| - 1;
      CollectMembers(vs[..n]);
      InsertMembers(Collect(vs[..n]), vs[n]);
    }
  }

  lemma {:induction false} NarrowEachAt(e: Type, vs: seq<Value>)
    requires forall i :: 0 <= i < |vs| ==> HasType(e, vs[i])
    ensures |NarrowEach(e, vs)| == |vs|
    ensures forall i :: 0 <= i < |vs| ==> NarrowEach(e, vs)[i] == Narrow(e, vs[i])
    decreases |vs|
  {
    if vs != [] {
      NarrowEachAt(e, vs[..|vs| - 1]);
    }
  }

  lemma {:induction false} NarrowAllAt(ts: seq<Type>, vs: seq<Value>)
    requires HaveTypes(ts, vs)
    ensures |NarrowAll(ts, vs)| == |vs|
    ensures forall i :: 0 <= i < |vs| ==> NarrowAll(ts, vs)[i] == Narrow(ts[i], vs[i])
    decreases |vs|
  {
    if ts != [] {
      NarrowAllAt(ts[1..], vs[1..]);
    }
  }

  /** What has been through the conversions fits. */
  lemma {:induction false} NarrowedFits(t: Type, v: Value)
    requires t.Valid() && HasType(t, v) && HasType(t, Narrow(t, v))
    ensures Fits(t, Narrow(t, v))
    decreases t
  {
    match t
    case Converted(stored, sent) =>
      WrapHas(sent, v.n);
      WiderHas(sent, stored, sent.Wrap(v.n));
      WrapKeeps(stored, sent.Wrap(v.n));
    case Container(e, _) =>
      NarrowEachAt(e, v.items);
      CollectMembers(NarrowEach(e, v.items));
      var items := Narrow(t, v).items;
      forall i | 0 <= i < |items| ensures Fits(e, items[i]) {
        assert items[i] in NarrowEach(e, v.items);
        var j :| 0 <= j < |v.items| && items[i] == Narrow(e, v.items[j]);
        NarrowedFits(e, v.items[j]);
      }
    case Tuple(ts) => NarrowedAllFit(ts, v.items);
    case User(ts) => NarrowedAllFit(ts, v.items);
    case _ =>
  }

  lemma {:induction false} NarrowedAllFit(ts: seq<Type>, vs: seq<Value>)
    requires (forall i :: 0 <= i < |ts| ==> ts[i].Valid()) && HaveTypes(ts, vs) && HaveTypes(ts, NarrowAll(ts, vs))
    ensures AllFit(ts, NarrowAll(ts, vs))
    decreases ts
  {
    NarrowAllAt(ts, vs);
    forall i | 0 <= i < |ts| ensures Fits(ts[i], NarrowAll(ts, vs)[i]) {
      NarrowedFits(ts[i], vs[i]);
    }
  }

  /** A value comes back as it was sent if and only if its converted fields fit. */
  lemma FaithfulIffFits(t: Type, v: Value, suffix: seq<Byte>)
    requires t.Valid() && HasType(t, v)
    ensures Decode(t, Encode(t, v) + suffix) == Just((v, suffix)) <==> Fits(t, v)
  {
    ReadBack(t, v, suffix);
    NarrowKeepsWhatFits(t, v);
    if Narrow(t, v) == v {
      NarrowedFits(t, v);
    }
  }
}
