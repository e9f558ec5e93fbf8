/** The types that can go over the network, their values, and integers as bytes. */
module WireTypes {

  type Byte = n: int | 0 <= n < 256

  // sizeof( long ) and sizeof( int )
  const LONG: nat := 8
  const INT: nat := 4

  /** An integer type: its width in bytes and whether it is signed. */
  datatype Width = Width(bytes: nat, signed: bool) {
    predicate Has(n: int) {
      if signed then -Power(bytes) <= 2 * n < Power(bytes) else 0 <= n < Power(bytes)
    }

    /** The value of this type that is congruent to n. */
    function Wrap(n: int): int {
      var u := n % Power(bytes);
      if signed && 2 * u >= Power(bytes) then u - Power(bytes) else u
    }
  }

  /** The universe of serializable types. A field is `Converted` when a user type stores it wider than the
      tuple that stands for the type on the wire. */
  datatype Type =
    | Fundamental(width: Width)
    | Enum(width: Width)
    | Converted(stored: Width, sent: Width)
    | Container(element: Type, ordered: bool)
    | Tuple(fields: seq<Type>)
    | User(fields: seq<Type>) {

    /** Integers have a width, and conversions only narrow. */
    predicate Valid() {
      match this
      case Fundamental(w) => w.bytes > 0
      case Enum(w) => w.bytes > 0
      case Converted(stored, sent) => 0 < sent.bytes < stored.bytes && stored.signed == sent.signed
      case Container(e, _) => e.Valid()
      case Tuple(ts) => forall i :: 0 <= i < |ts| ==> ts[i].Valid()
      case User(ts) => forall i :: 0 <= i < |ts| ==> ts[i].Valid()
    }
  }

  datatype Value = Number(n: int) | List(items: seq<Value>)

  /** The order in which a set keeps its elements. */
  predicate Less(a: Value, b: Value) {
    match (a, b)
    case (Number(m), Number(n)) => m < n
    case (List(xs), List(ys)) => LessAll(xs, ys)
    case _ => false
  }

  predicate LessAll(xs: seq<Value>, ys: seq<Value>) {
    if ys == [] then false
    else if xs == [] then true
    else Less(xs[0], ys[0]) || (xs[0] == ys[0] && LessAll(xs[1..], ys[1..]))
  }

  predicate Increasing(xs: seq<Value>) {
    forall i :: 0 < i < |xs| ==> Less(xs[i - 1], xs[i])
  }

  predicate HasType(t: Type, v: Value) {
    match t
    case Fundamental(w) => v.Number? && w.Has(v.n)
    case Enum(w) => v.Number? && w.Has(v.n)
    case Converted(stored, _) => v.Number? && stored.Has(v.n)
    case Container(e, ordered) =>
      && v.List? && Width(LONG, true).Has(|v.items|)
      && (forall i :: 0 <= i < |v.items| ==> HasType(e, v.items[i]))
      && (ordered ==> Increasing(v.items))
    case Tuple(ts) => v.List? && HaveTypes(ts, v.items)
    case User(ts) => v.List? && HaveTypes(ts, v.items)
  }

  predicate HaveTypes(ts: seq<Type>, vs: seq<Value>) {
    && |ts| == |vs|
    && forall i :: 0 <= i < |ts| ==> HasType(ts[i], vs[i])
  }

  // ---- integers as bytes, the low byte first

  function Power(w: nat): (p: int)
    ensures p > 0
  {
    if w == 0 then 1 else 256 * Power(w - 1)
  }

  function ToBytes(n: int, w: nat): (b: seq<Byte>)
    ensures |b| == w
    decreases w
  {
    if w == 0 then [] else [n % 256] + ToBytes(n / 256, w - 1)
  }

  function FromBytes(b: seq<Byte>): (n: int)
    ensures 0 <= n < Power(|b|)
  {
    if b == [] then 0 else b[0] + 256 * FromBytes(b[1..])
  }

  lemma ModuloStep(n: int, p: int)
    requires p > 0
    ensures n % 256 + 256 * (n / 256 % p) == n % (256 * p)
  {
    var q, r := n / 256, n % 256;
    var a, c := q / p, q % p;
    assert n == 256 * q + r && q == p * a + c;
    assert n == (256 * p) * a + (256 * c + r) by {
      assert 256 * (p * a) == (256 * p) * a;
    }
    assert 256 * c + r < 256 * p;
    Remainder(n, 256 * p, a, 256 * c + r);
  }

  lemma Remainder(n: int, d: int, q: int, r: int)
    requires d > 0 && n == d * q + r && 0 <= r < d
    ensures n / d == q && n % d == r
  {
    var q', r' := n / d, n % d;
    assert n == d * q' + r';
    Difference(d, q, q');
    if q > q' {
      AtLeast(d, q - q');
    } else if q < q' {
      AtLeast(d, q' - q);
      Difference(d, q', q);
    }
  }

  lemma Difference(d: int, q: int, q': int)
    ensures d * (q - q') == d * q - d * q'
  {
  }

  lemma AtLeast(d: int, k: int)
    requires d > 0 && k > 0
    ensures d * k >= d
  {
    Difference(d, k, 1);
  }

  /** Writing an integer and reading it back keeps what fits in the bytes. */
  lemma {:induction false} BytesModulo(n: int, w: nat)
    ensures FromBytes(ToBytes(n, w)) == n % Power(w)
    decreases w
  {
    if w > 0 {
      BytesModulo(n / 256, w - 1);
      assert ToBytes(n, w)[1..] == ToBytes(n / 256, w - 1);
      ModuloStep(n, Power(w - 1));
    }
  }

  /** The low byte comes first: byte k is digit k in base 256. */
  lemma {:induction false} LowByteFirst(n: int, w: nat, k: nat)
    requires k < w
    ensures ToBytes(n, w)[k] == n / Power(k) % 256
    decreases w
  {
    if k > 0 {
      LowByteFirst(n / 256, w - 1, k - 1);
      DivideTwice(n, Power(k - 1));
    }
  }

  lemma DivideTwice(n: int, p: int)
    requires p > 0
    ensures n / 256 / p == n / (256 * p)
  {
    var q, r := n / 256, n % 256;
    var a, c := q / p, q % p;
    assert n == 256 * q + r && q == p * a + c;
    assert 256 * (p * a) == (256 * p) * a;
    Remainder(n, 256 * p, a, 256 * c + r);
  }

  /** Reading a written value as its own type gives it back. */
  lemma WrapKeeps(w: Width, n: int)
    requires w.Has(n)
    ensures w.Wrap(n) == n
  {
    var p := Power(w.bytes);
    if n >= 0 {
      Remainder(n, p, 0, n);
    } else {
      Remainder(n, p, -1, n + p);
    }
  }

  lemma WrapHas(w: Width, n: int)
    ensures w.Has(w.Wrap(n))
  {
  }

  lemma {:induction false} WiderHas(narrow: Width, wide: Width, n: int)
    requires narrow.bytes <= wide.bytes && narrow.signed == wide.signed && narrow.Has(n)
    ensures wide.Has(n)
  {
    PowerGrows(narrow.bytes, wide.bytes);
  }

  lemma {:induction false} PowerGrows(v: nat, w: nat)
    requires v <= w
    ensures Power(v) <= Power(w)
  {
    if v < w {
      PowerGrows(v, w - 1);
    }
  }
}
