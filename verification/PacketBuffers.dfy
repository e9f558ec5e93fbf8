/** Serialization as the program does it: a cursor that moves through a byte buffer. */
module PacketBuffers {
  import opened ElevatorTypes
  import opened Packets
  import opened Serialization
  import opened WireTypes

  /** The bytes stand from `at` to `next`; the rest of the buffer is as it was. */
  predicate Wrote(before: seq<Byte>, now: seq<Byte>, at: nat, bytes: seq<Byte>, next: nat) {
    && next == at + |bytes| <= |before|
    && now == before[..at] + bytes + before[next..]
  }

  lemma WroteThen(b: seq<Byte>, c: seq<Byte>, d: seq<Byte>, at: nat, x: seq<Byte>, mid: nat, y: seq<Byte>, next: nat)
    requires Wrote(b, c, at, x, mid) && Wrote(c, d, mid, y, next)
    ensures Wrote(b, d, at, x + y, next)
  {
    assert c[..mid] == b[..at] + x && c[next..] == b[next..];
    assert b[..at] + (x + y) + b[next..] == (b[..at] + x) + y + b[next..];
  }

  lemma WroteNothing(b: seq<Byte>, at: nat)
    requires at <= |b|
    ensures Wrote(b, b, at, [], at)
  {
    assert b == b[..at] + [] + b[at..];
  }

  method WriteNumber(n: int, w: nat, buf: array<Byte>, at: nat) returns (next: nat)
    requires at + w <= buf.Length
    modifies buf
    ensures Wrote(old(buf[..]), buf[..], at, ToBytes(n, w), next)
  {
    hide Wrote;
    next := at;
    var rest, left: nat := n, w;
    ghost var done: seq<Byte> := [];
    WroteNothing(buf[..], at);
    while left > 0
      invariant next + left == at + w
      invariant Wrote(old(buf[..]), buf[..], at, done, next)
      invariant done + ToBytes(rest, left) == ToBytes(n, w)
    {
      ghost var before := buf[..];
      buf[next] := rest % 256;
      assert buf[..] == before[..next] + [rest % 256] + before[next + 1..];
      WroteThen(old(buf[..]), before, buf[..], at, done, next, [rest % 256], next + 1);
      assert done + ([rest % 256] + ToBytes(rest / 256, left - 1))
          == done + [rest % 256] + ToBytes(rest / 256, left - 1);
      done := done + [rest % 256];
      next, rest, left := next + 1, rest / 256, left - 1;
    }
    assert done + [] == done;
  }

  method SerializeAt(t: Type, v: Value, buf: array<Byte>, at: nat) returns (next: nat)
    requires HasType(t, v) && at + |Encode(t, v)| <= buf.Length
    modifies buf
    ensures Wrote(old(buf[..]), buf[..], at, Encode(t, v), next)
    decreases t, 1
  {
    match t
    case Fundamental(w) => next := WriteNumber(v.n, w.bytes, buf, at);
    case Enum(w) => next := WriteNumber(v.n, w.bytes, buf, at);
    case Converted(_, sent) => next := WriteNumber(v.n, sent.bytes, buf, at);
    case Container(e, _) => next := SerializeContainer(e, v.items, buf, at);
    case Tuple(ts) => next := SerializeTuple(ts, v.items, buf, at);
    case User(ts) => next := SerializeTuple(ts, v.items, buf, at);
  }

  lemma EncodeNone(e: Type)
    ensures EncodeEach(e, []) == []
  {
  }

  method SerializeContainer(e: Type, vs: seq<Value>, buf: array<Byte>, at: nat) returns (next: nat)
    requires forall i :: 0 <= i < |vs| ==> HasType(e, vs[i])
    requires at + LONG + |EncodeEach(e, vs)| <= buf.Length
    modifies buf
    ensures Wrote(old(buf[..]), buf[..], at, ToBytes(|vs|, LONG) + EncodeEach(e, vs), next)
    decreases e, 3
  {
    hide Wrote, ToBytes, HasType, Encode, EncodeEach;
    ghost var start := buf[..];
    next := WriteNumber(|vs|, LONG, buf, at);
    ghost var done := ToBytes(|vs|, LONG);
    NextIs(start, buf[..], at, done, next);
    EncodeNone(e);
    assert vs[..0] == [];
    var i := 0;
    while i < |vs|
      invariant 0 <= i <= |vs|
      invariant done == ToBytes(|vs|, LONG) + EncodeEach(e, vs[..i])
      invariant next == at + |done| && Wrote(start, buf[..], at, done, next)
    {
      EncodeEachStep(e, vs, i);
      next := SerializeNext(e, vs[i], buf, next, start, at, done);
      done := done + Encode(e, vs[i]);
      i := i + 1;
    }
    assert vs[..i] == vs;
  }

  lemma NextIs(before: seq<Byte>, now: seq<Byte>, at: nat, bytes: seq<Byte>, next: nat)
    requires Wrote(before, now, at, bytes, next)
    ensures next == at + |bytes|
  {
  }

  /** Writes one more value behind what has been written since `start`. */
  method SerializeNext(t: Type, v: Value, buf: array<Byte>, from: nat, ghost start: seq<Byte>, ghost at: nat,
                       ghost done: seq<Byte>) returns (next: nat)
    requires HasType(t, v) && from + |Encode(t, v)| <= buf.Length
    requires Wrote(start, buf[..], at, done, from)
    modifies buf
    ensures Wrote(start, buf[..], at, done + Encode(t, v), next) && next == from + |Encode(t, v)|
    decreases t, 2
  {
    ghost var before := buf[..];
    next := SerializeAt(t, v, buf, from);
    WroteThen(start, before, buf[..], at, done, from, Encode(t, v), next);
  }

  lemma {:induction false} EncodeEachStep(e: Type, vs: seq<Value>, i: nat)
    requires i < |vs| && forall j :: 0 <= j < |vs| ==> HasType(e, vs[j])
    ensures EncodeEach(e, vs[..i + 1]) == EncodeEach(e, vs[..i]) + Encode(e, vs[i])
    ensures |EncodeEach(e, vs[..i + 1])| <= |EncodeEach(e, vs)|
    decreases |vs| - i
  {
    assert vs[..i + 1][..i] == vs[..i];
    if i + 1 < |vs| {
      EncodeEachStep(e, vs, i + 1);
    } else {
      assert vs[..i + 1] == vs;
    }
  }

  method SerializeTuple(ts: seq<Type>, vs: seq<Value>, buf: array<Byte>, at: nat) returns (next: nat)
    requires HaveTypes(ts, vs) && at + |EncodeAll(ts, vs)| <= buf.Length
    modifies buf
    ensures Wrote(old(buf[..]), buf[..], at, EncodeAll(ts, vs), next)
    decreases ts, 0
  {
    next := at;
    if ts == [] {
      WroteNothing(buf[..], at);
    } else {
      var mid := SerializeAt(ts[0], vs[0], buf, at);
      ghost var before := buf[..];
      next := SerializeTuple(ts[1..], vs[1..], buf, mid);
      WroteThen(old(buf[..]), before, buf[..], at, Encode(ts[0], vs[0]), mid, EncodeAll(ts[1..], vs[1..]), next);
    }
  }

  // ---- reading

  /** The cursor stands behind what has been read; Nothing when the buffer ends too soon. */
  predicate ReadTo<T(==)>(expected: Maybe<(T, seq<Byte>)>, r: Maybe<T>, b: seq<Byte>, next: nat) {
    match expected
    case Nothing => r == Nothing
    case Just((v, rest)) => r == Just(v) && next <= |b| && rest == b[next..]
  }

  method ReadNumber(w: Width, buf: array<Byte>, from: nat) returns (r: Maybe<Value>, next: nat)
    requires from <= buf.Length
    ensures ReadTo(DecodeNumber(w, buf[from..]), r, buf[..], next)
    ensures r.Just? ==> r.value.Number?
  {
    next := from;
    if buf.Length - from < w.bytes {
      return Nothing, next;
    }
    var n: int := 0;
    var i: nat := w.bytes;
    assert buf[from + i..from + w.bytes] == [];
    while i > 0
      invariant 0 <= i <= w.bytes
      invariant n == FromBytes(buf[from + i..from + w.bytes])
    {
      i := i - 1;
      assert buf[from + i..from + w.bytes][1..] == buf[from + i + 1..from + w.bytes];
      n := buf[from + i] + 256 * n;
    }
    next := from + w.bytes;
    assert buf[from..][..w.bytes] == buf[from..next] && buf[from..][w.bytes..] == buf[next..] == buf[..][next..];
    r := Just(Number(w.Wrap(n)));
  }

  method Deserialize(t: Type, buf: array<Byte>, from: nat) returns (r: Maybe<Value>, next: nat)
    requires from <= buf.Length
    ensures ReadTo(Decode(t, buf[from..]), r, buf[..], next)
    decreases t, 1
  {
    match t
    case Fundamental(w) => r, next := ReadNumber(w, buf, from);
    case Enum(w) => r, next := ReadNumber(w, buf, from);
    case Converted(stored, sent) =>
      r, next := ReadNumber(sent, buf, from);
      if r.Just? {
        r := Just(Number(stored.Wrap(r.value.n)));
      }
    case Container(e, ordered) =>
      r, next := DeserializeContainer(e, ordered, buf, from);
    case Tuple(ts) =>
      var vs;
      vs, next := DeserializeTuple(ts, buf, from);
      assert Decode(t, buf[from..]) == DecodeTuple(ts, buf[from..]);
      r := if vs.Just? then Just(List(vs.value)) else Nothing;
    case User(ts) =>
      var vs;
      vs, next := DeserializeTuple(ts, buf, from);
      assert Decode(t, buf[from..]) == DecodeTuple(ts, buf[from..]);
      r := if vs.Just? then Just(List(vs.value)) else Nothing;
  }

  method DeserializeContainer(e: Type, ordered: bool, buf: array<Byte>, from: nat) returns (r: Maybe<Value>, next: nat)
    requires from <= buf.Length
    ensures ReadTo(Decode(Container(e, ordered), buf[from..]), r, buf[..], next)
    decreases e, 2
  {
    var count;
    count, next := ReadNumber(Width(LONG, true), buf, from);
    if count == Nothing {
      return Nothing, next;
    }
    var i, tempstore := 0, [];
    ghost var body := buf[next..];
    hide DecodeNumber, Collect;
    while i < count.value.n
      invariant 0 <= i && (i <= count.value.n || i == 0) && next <= buf.Length
      invariant DecodeEach(e, i, body) == Just((tempstore, buf[next..]))
    {
      var v, after := Deserialize(e, buf, next);
      if v == Nothing {
        FailsFor(e, i + 1, count.value.n, body);
        return Nothing, after;
      }
      tempstore, next := tempstore + [v.value], after;
      i := i + 1;
    }
    r := Just(List(if ordered then Collect(tempstore) else tempstore));
  }

  /** Once the bytes have run out, asking for more elements does not help. */
  lemma {:induction false} FailsFor(e: Type, i: nat, count: nat, b: seq<Byte>)
    requires i <= count && DecodeEach(e, i, b) == Nothing
    ensures DecodeEach(e, count, b) == Nothing
    decreases count
  {
    if i < count {
      FailsFor(e, i, count - 1, b);
    }
  }

  method DeserializeTuple(ts: seq<Type>, buf: array<Byte>, from: nat) returns (r: Maybe<seq<Value>>, next: nat)
    requires from <= buf.Length
    ensures ReadTo(DecodeAll(ts, buf[from..]), r, buf[..], next)
    decreases ts, 0
  {
    if ts == [] {
      return Just([]), from;
    }
    var elem;
    elem, next := Deserialize(ts[0], buf, from);
    if elem == Nothing {
      return Nothing, next;
    }
    var others;
    others, next := DeserializeTuple(ts[1..], buf, next);
    r := if others.Just? then Just([elem.value] + others.value) else Nothing;
  }

  // ---- packets

  /** Fills a fresh buffer with header and data, if their size is that of an int. */
  method Pack(tag: int, t: Type, v: Value) returns (packet: Maybe<array<Byte>>)
    requires HasType(t, v)
    ensures match packet
            case Nothing => ToPacket(tag, t, v) == Nothing
            case Just(a) => fresh(a) && ToPacket(tag, t, v) == Just(a[..])
  {
    SizeIsLength(t, v);
    var size := Size(t, v);
    var packetSize := SIGNED_INT.Wrap(OFFSET + size);
    if packetSize != OFFSET + size {
      return Nothing;
    }
    hide Encode, Size, ToBytes, HasType, Width.Wrap, Layout;
    var a := new Byte[packetSize];
    Fill(tag, t, v, size, a);
    packet := Just(a);
  }

  method Fill(tag: int, t: Type, v: Value, size: nat, packet: array<Byte>)
    requires HasType(t, v) && size == |Encode(t, v)| && packet.Length == OFFSET + size
    modifies packet
    ensures packet[..] == Layout(tag, t, v)
  {
    hide Encode, Size, ToBytes, HasType;
    ghost var b0 := packet[..];
    var p := WriteNumber(tag, INT, packet, 0);
    ghost var b1 := packet[..];
    p := WriteNumber(size, INT, packet, p);
    ghost var b2 := packet[..];
    WroteThen(b0, b1, b2, 0, ToBytes(tag, INT), INT, ToBytes(size, INT), p);
    p := SerializeAt(t, v, packet, p);
    WroteThen(b0, b2, packet[..], 0, ToBytes(tag, INT) + ToBytes(size, INT), OFFSET, Encode(t, v), p);
    hide Wrote;
    WroteAll(b0, packet[..], Layout(tag, t, v), p);
  }

  lemma WroteAll(b: seq<Byte>, c: seq<Byte>, bytes: seq<Byte>, next: nat)
    requires Wrote(b, c, 0, bytes, next) && |bytes| == |b|
    ensures c == bytes
  {
  }

  method ReadHeader(packet: array<Byte>) returns (signature: int, size: int)
    requires packet.Length >= OFFSET
    ensures signature == SIGNED_INT.Wrap(FromBytes(packet[..INT]))
    ensures size == SIGNED_INT.Wrap(FromBytes(packet[INT..OFFSET]))
  {
    var first, at := ReadNumber(SIGNED_INT, packet, 0);
    HeaderParts(packet[..]);
    assert packet[..] == packet[0..] && packet[..][INT..] == packet[INT..];
    var second, _ := ReadNumber(SIGNED_INT, packet, INT);
    signature, size := first.value.n, second.value.n;
  }

  /** The copy that is deserialized. */
  method CopyData(packet: array<Byte>, n: nat) returns (serial: array<Byte>)
    requires OFFSET + n <= packet.Length
    ensures serial[..] == packet[OFFSET..OFFSET + n]
  {
    serial := new Byte[n];
    forall i | 0 <= i < n {
      serial[i] := packet[OFFSET + i];
    }
  }

  method Unpack(tag: int, t: Type, packet: array<Byte>) returns (r: Received)
    ensures r == FromPacket(tag, t, packet[..])
  {
    hide Decode, Size, FromBytes, Power, Width.Wrap;
    if packet.Length < OFFSET {
      return Failed;
    }
    var signature, n := ReadHeader(packet);
    assert packet[..][..INT] == packet[..INT] && packet[..][INT..OFFSET] == packet[INT..OFFSET];
    if n < 0 || OFFSET + n > packet.Length {
      return Failed;
    }
    var serial := CopyData(packet, n);
    assert serial[0..] == packet[..][OFFSET..OFFSET + n];
    if signature != tag {
      return WrongType;
    }
    var v, next := Deserialize(t, serial, 0);
    if v == Nothing {
      return Failed;
    }
    r := if n == Size(t, v.value) then Got(v.value) else Failed;
  }

  lemma HeaderParts(p: seq<Byte>)
    requires |p| >= OFFSET
    ensures p[0..][..INT] == p[..INT] && p[INT..][..INT] == p[INT..OFFSET]
    ensures DecodeNumber(SIGNED_INT, p[0..]) == Just((Number(SIGNED_INT.Wrap(FromBytes(p[..INT]))), p[INT..]))
    ensures DecodeNumber(SIGNED_INT, p[INT..])
         == Just((Number(SIGNED_INT.Wrap(FromBytes(p[INT..OFFSET]))), p[OFFSET..]))
  {
    assert p[0..][..INT] == p[..INT] && p[0..][INT..] == p[INT..];
    assert p[INT..][..INT] == p[INT..OFFSET] && p[INT..][INT..] == p[OFFSET..];
  }
}
