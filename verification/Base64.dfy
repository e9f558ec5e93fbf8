/** Base64 (section 4 of RFC 4648) on bytes held in signed chars. */
module Base64 {

  const PAD: int := 61  // '='

  /** The value of a char that holds this byte. */
  function Signed(c: int): int { if c >= 128 then c - 256 else c }

  predicate Bytes(s: seq<int>) { forall i :: 0 <= i < |s| ==> 0 <= s[i] < 256 }

  // ---- the alphabet

  function Alphabet(d: int): int
    requires 0 <= d < 64
  {
    if d < 26 then 65 + d
    else if d < 52 then 97 + d - 26
    else if d < 62 then 48 + d - 52
    else if d == 62 then 43
    else 47
  }

  /** Characters outside the alphabet stand for 0, but for 123 the source reads the char behind its table,
      which may hold anything. */
  function Inverse(c: int, beyond: int): (d: int)
    ensures c != 123 ==> 0 <= d < 64
    ensures forall v :: 0 <= v < 64 && c == Alphabet(v) ==> d == v
  {
    if c == 123 then beyond
    else if c == 43 then 62
    else if c == 47 then 63
    else if 48 <= c <= 57 then c + 4
    else if 65 <= c <= 90 then c - 65
    else if 97 <= c <= 122 then c - 71
    else 0
  }

  // ---- 24 bits at a time

  const WORD: int := 0x1_0000_0000

  function At(s: seq<int>, i: nat): int {
    if i < |s| then s[i] else 0
  }

  /** Three chars in an unsigned int. */
  function Pack(c0: int, c1: int, c2: int): (enc: int)
    ensures 0 <= enc < WORD
  {
    (0x1_0000 * c0 + 0x100 * c1 + c2) % WORD
  }

  function Power64(j: nat): int {
    if j == 0 then 1 else if j == 1 then 0x40 else if j == 2 then 0x1000 else 0x4_0000
  }

  function Power256(j: nat): int {
    if j == 0 then 1 else if j == 1 then 0x100 else 0x1_0000
  }

  /** (enc >> 6j) & 63 */
  function Sextet(enc: int, j: nat): (d: int)
    ensures 0 <= d < 64
  {
    enc / Power64(j) % 64
  }

  /** (enc >> 8j) & 255 */
  function Octet(enc: int, j: nat): (b: int)
    ensures 0 <= b < 256
  {
    enc / Power256(j) % 256
  }

  /** Four digits in an unsigned int. */
  function Unpack(d0: int, d1: int, d2: int, d3: int): (enc: int)
    ensures 0 <= enc < WORD
  {
    (0x4_0000 * d0 + 0x1000 * d1 + 0x40 * d2 + d3) % WORD
  }

  // ---- the encoding and the decoding, character by character

  function Triples(n: nat): nat { (n + 2) / 3 }

  function Padding(n: nat): nat { (3 - n % 3) % 3 }

  function PackAt(s: seq<int>, k: nat): (enc: int)
    ensures 0 <= enc < WORD
  {
    Pack(Signed(At(s, 3 * k)), Signed(At(s, 3 * k + 1)), Signed(At(s, 3 * k + 2)))
  }

  function Raw(s: seq<int>): (r: seq<int>)
    ensures |r| == 4 * Triples(|s|)
  {
    seq(4 * Triples(|s|), p requires 0 <= p => Alphabet(Sextet(PackAt(s, p / 4), 3 - p % 4)))
  }

  function Encode(s: seq<int>): (r: seq<int>)
    ensures |r| == 4 * Triples(|s|)
  {
    var n := 4 * Triples(|s|);
    seq(n, p requires 0 <= p < n => if p < n - Padding(|s|) then Raw(s)[p] else PAD)
  }

  function DigitAt(t: seq<int>, p: nat, beyond: int): int {
    Inverse(At(t, p), beyond)
  }

  function UnpackAt(t: seq<int>, k: nat, beyond: int): (enc: int)
    ensures 0 <= enc < WORD
  {
    Unpack(DigitAt(t, 4 * k, beyond), DigitAt(t, 4 * k + 1, beyond),
           DigitAt(t, 4 * k + 2, beyond), DigitAt(t, 4 * k + 3, beyond))
  }

  function Quadruples(n: nat): nat { (n + 3) / 4 }

  function Decoded(t: seq<int>, beyond: int): (r: seq<int>)
    ensures |r| == 3 * Quadruples(|t|)
  {
    seq(3 * Quadruples(|t|), p requires 0 <= p => Octet(UnpackAt(t, p / 3, beyond), 2 - p % 3))
  }

  function TrailingPads(t: seq<int>): nat {
    if t != [] && t[|t| - 1] == PAD then TrailingPads(t[..|t| - 1]) + 1 else 0
  }

  function Decode(t: seq<int>, beyond: int): seq<int> {
    var r := Decoded(t, beyond);
    var pads := TrailingPads(t);
    if pads >= |r| then [] else r[..|r| - pads]
  }

  // ---- the loops

  /** Reducing on the way changes nothing. */
  lemma Modular(x: int, y: int)
    ensures (x % WORD + y) % WORD == (x + y) % WORD
  {
    assert x + y == WORD * (x / WORD + (x % WORD + y) / WORD) + (x % WORD + y) % WORD;
  }

  /** The triple at i, as far as the string goes. */
  method PackTriple(str: seq<int>, i: nat) returns (enc: int)
    requires i < |str| && i % 3 == 0
    ensures enc == PackAt(str, i / 3)
  {
    hide Signed;
    ghost var sum := 0x1_0000 * Signed(str[i]);
    if i + 3 < |str| {
      sum := sum + 0x100 * Signed(str[i + 1]) + Signed(str[i + 2]);
      enc := (0x1_0000 * Signed(str[i]) + 0x100 * Signed(str[i + 1]) + Signed(str[i + 2])) % WORD;
    } else {
      enc := 0x1_0000 * Signed(str[i]) % WORD;
      if i + 1 < |str| {
        Modular(sum, 0x100 * Signed(str[i + 1]));
        enc := (enc + 0x100 * Signed(str[i + 1])) % WORD;
        sum := sum + 0x100 * Signed(str[i + 1]);
      }
      if i + 2 < |str| {
        Modular(sum, Signed(str[i + 2]));
        enc := (enc + Signed(str[i + 2])) % WORD;
        sum := sum + Signed(str[i + 2]);
      }
    }
    assert enc == sum % WORD;
    assert Signed(0) == 0 by {
      SignedZero();
    }
    assert sum == 0x1_0000 * Signed(At(str, i)) + 0x100 * Signed(At(str, i + 1)) + Signed(At(str, i + 2));
  }

  lemma SignedZero()
    ensures Signed(0) == 0
  {
  }

  method EncodeBase64(str: seq<int>) returns (res: seq<int>)
    requires Bytes(str)
    ensures res == Encode(str)
  {
    hide PackAt, Alphabet, Sextet;
    res := [];
    var i := 0;
    while i < |str|
      invariant i % 3 == 0 && i / 3 <= Triples(|str|) && 0 <= i && (i < |str| || i / 3 == Triples(|str|))
      invariant res == Raw(str)[..4 * (i / 3)]
    {
      var enc := PackTriple(str, i);
      ghost var k := i / 3;
      var j: int := 3;
      while j >= 0
        invariant -1 <= j <= 3
        invariant res == Raw(str)[..4 * k + 3 - j]
      {
        RawAt(str, k, j);
        res := res + [Alphabet(Sextet(enc, j))];
        j := j - 1;
      }
      i := i + 3;
    }
    res := PadEnd(str, res);
  }

  lemma RawAt(s: seq<int>, k: nat, j: nat)
    requires k < Triples(|s|) && j <= 3
    ensures Raw(s)[..4 * k + 4 - j] == Raw(s)[..4 * k + 3 - j] + [Alphabet(Sextet(PackAt(s, k), j))]
  {
    hide PackAt, Alphabet, Sextet;
    assert (4 * k + 3 - j) / 4 == k && 3 - (4 * k + 3 - j) % 4 == j;
  }

  method PadEnd(str: seq<int>, raw: seq<int>) returns (res: seq<int>)
    requires raw == Raw(str)
    ensures res == Encode(str)
  {
    hide PackAt, Alphabet, Sextet;
    res := raw;
    if |str| % 3 != 0 {
      var p := 0;
      while p < 3 - |str| % 3
        invariant 0 <= p <= 3 - |str| % 3 && |res| == 4 * Triples(|str|)
        invariant forall q :: 0 <= q < |res| ==> res[q] == if q < |res| - p then raw[q] else PAD
      {
        res := res[|res| - p - 1 := PAD];
        p := p + 1;
      }
      assert p == Padding(|str|);
    }
    forall q | 0 <= q < |res| ensures res[q] == Encode(str)[q] {
      assert Encode(str)[q] == if q < 4 * Triples(|str|) - Padding(|str|) then Raw(str)[q] else PAD;
    }
  }

  method UnpackAll(str: seq<int>, beyond: int) returns (res: seq<int>)
    ensures res == Decoded(str, beyond)
  {
    hide Inverse, UnpackAt, Octet;
    res := [];
    var i := 0;
    while i < |str|
      invariant i % 4 == 0 && i / 4 <= Quadruples(|str|) && 0 <= i && (i < |str| || i / 4 == Quadruples(|str|))
      invariant res == Decoded(str, beyond)[..3 * (i / 4)]
    {
      var enc := PackQuadruple(str, i, beyond);
      OctetsAt(str, i / 4, beyond);
      res := res + [Octet(enc, 2)];
      res := res + [Octet(enc, 1)];
      res := res + [Octet(enc, 0)];
      i := i + 4;
    }
  }

  method PackQuadruple(str: seq<int>, i: nat, beyond: int) returns (enc: int)
    requires i < |str| && i % 4 == 0
    ensures enc == UnpackAt(str, i / 4, beyond)
  {
    hide Inverse;
    ghost var sum := 0x4_0000 * Inverse(str[i], beyond);
    if i + 4 < |str| {
      sum := sum + 0x1000 * Inverse(str[i + 1], beyond)
             + 0x40 * Inverse(str[i + 2], beyond) + Inverse(str[i + 3], beyond);
      enc := (0x4_0000 * Inverse(str[i], beyond) + 0x1000 * Inverse(str[i + 1], beyond)
              + 0x40 * Inverse(str[i + 2], beyond) + Inverse(str[i + 3], beyond)) % WORD;
    } else {
      enc := 0x4_0000 * Inverse(str[i], beyond) % WORD;
      if i + 1 < |str| {
        Modular(sum, 0x1000 * Inverse(str[i + 1], beyond));
        enc := (enc + 0x1000 * Inverse(str[i + 1], beyond)) % WORD;
        sum := sum + 0x1000 * Inverse(str[i + 1], beyond);
      }
      if i + 2 < |str| {
        Modular(sum, 0x40 * Inverse(str[i + 2], beyond));
        enc := (enc + 0x40 * Inverse(str[i + 2], beyond)) % WORD;
        sum := sum + 0x40 * Inverse(str[i + 2], beyond);
      }
      if i + 3 < |str| {
        Modular(sum, Inverse(str[i + 3], beyond));
        enc := (enc + Inverse(str[i + 3], beyond)) % WORD;
        sum := sum + Inverse(str[i + 3], beyond);
      }
    }
    assert enc == sum % WORD;
    ZeroInverse(beyond);
    assert sum == 0x4_0000 * DigitAt(str, i, beyond) + 0x1000 * DigitAt(str, i + 1, beyond)
                  + 0x40 * DigitAt(str, i + 2, beyond) + DigitAt(str, i + 3, beyond);
  }

  lemma ZeroInverse(beyond: int)
    ensures Inverse(0, beyond) == 0
  {
  }

  lemma OctetsAt(t: seq<int>, k: nat, beyond: int)
    requires k < Quadruples(|t|)
    ensures var r, enc := Decoded(t, beyond), UnpackAt(t, k, beyond);
            r[..3 * (k + 1)] == r[..3 * k] + [Octet(enc, 2)] + [Octet(enc, 1)] + [Octet(enc, 0)]
  {
    hide UnpackAt, Octet;
    var r := Decoded(t, beyond);
    assert r[3 * k] == Octet(UnpackAt(t, k, beyond), 2);
    assert r[3 * k + 1] == Octet(UnpackAt(t, k, beyond), 1);
    assert r[3 * k + 2] == Octet(UnpackAt(t, k, beyond), 0);
  }

  /** Takes one byte off the end for each trailing pad, as far as there are bytes. */
  method DropPadding(str: seq<int>, all: seq<int>) returns (res: seq<int>)
    requires |str| > 0 ==> |all| > 0
    ensures res == if TrailingPads(str) >= |all| then [] else all[..|all| - TrailingPads(str)]
  {
    res := all;
    if |str| > 0 {
      var i := |str| - 1;
      assert str[..i + 1] == str;
      while str[i] == PAD
        invariant 0 <= i < |str| && |res| > 0 && |str| - 1 - i < |all|
        invariant res == all[..|all| - (|str| - 1 - i)]
        invariant TrailingPads(str) == |str| - 1 - i + TrailingPads(str[..i + 1])
        decreases i
      {
        assert str[..i + 1][..i] == str[..i];
        if |res| > 0 {
          res := res[..|res| - 1];
        }
        if i == 0 || |res| == 0 {
          break;
        }
        i := i - 1;
      }
    }
  }

  method DecodeBase64(str: seq<int>, beyond: int) returns (res: seq<int>)
    ensures res == Decode(str, beyond)
  {
    res := UnpackAll(str, beyond);
    res := DropPadding(str, res);
  }

  // ---- what comes back

  lemma QuotientOf(x: int, n: int, q: int, r: int)
    requires (n == 0x1000 || n == 0x4_0000) && x == n * q + r && 0 <= r < n
    ensures x / n == q
  {
    if n == 0x1000 {
      assert x / 0x1000 == q;
    } else {
      assert x / 0x4_0000 == q;
    }
  }

  /** Four digits in base 64 are 24 bits. */
  lemma SextetsBack(enc: int)
    requires 0 <= enc
    ensures Unpack(Sextet(enc, 3), Sextet(enc, 2), Sextet(enc, 1), Sextet(enc, 0)) == enc % 0x100_0000
  {
    var a, r0 := enc / 0x40, enc % 0x40;
    var b, r1 := a / 0x40, a % 0x40;
    var c, r2 := b / 0x40, b % 0x40;
    var d, r3 := c / 0x40, c % 0x40;
    QuotientOf(enc, 0x1000, b, 0x40 * r1 + r0);
    QuotientOf(enc, 0x4_0000, c, 0x1000 * r2 + 0x40 * r1 + r0);
    assert Sextet(enc, 0) == r0 && Sextet(enc, 1) == r1 && Sextet(enc, 2) == r2 && Sextet(enc, 3) == r3;
    hide Sextet;
    Remainder24(enc, d, 0x4_0000 * r3 + 0x1000 * r2 + 0x40 * r1 + r0);
  }

  lemma Remainder24(x: int, q: int, y: int)
    requires x == 0x100_0000 * q + y && 0 <= y < 0x100_0000
    ensures x % 0x100_0000 == y
  {
  }

  lemma Octets(v: int, a: int, b: int, c: int)
    requires 0 <= a < 256 && 0 <= b < 256 && 0 <= c < 256 && v == 0x1_0000 * a + 0x100 * b + c
    ensures Octet(v, 2) == a && Octet(v, 1) == b && Octet(v, 0) == c
  {
    assert v / 0x100 == 0x100 * a + b;
    assert v / 0x1_0000 == a;
  }

  lemma Low24(x: int, y: int, q: int)
    requires x == 0x100_0000 * q + y && 0 <= y < 0x100_0000
    ensures x % WORD % 0x100_0000 == y
  {
    var h, r := x / WORD, x % WORD;
    var k, t := r / 0x100_0000, r % 0x100_0000;
    assert x == 0x100_0000 * (256 * h + k) + t;
    assert 0x100_0000 * (256 * h + k - q) == y - t;
  }

  /** The bytes of a packed triple: the last is right; a negative last char takes one from the byte before
      it, and negative chars behind the first byte take one from that. */
  lemma OctetsBack(c0: int, c1: int, c2: int)
    requires -128 <= c0 < 128 && -128 <= c1 < 128 && -128 <= c2 < 128
    ensures var v := Pack(c0, c1, c2) % 0x100_0000;
            && Octet(v, 0) == c2 % 256
            && Octet(v, 1) == (if c2 < 0 then c1 - 1 else c1) % 256
            && Octet(v, 2) == (if 0x100 * c1 + c2 < 0 then c0 - 1 else c0) % 256
  {
    var x := 0x1_0000 * c0 + 0x100 * c1 + c2;
    var b1 := if c2 < 0 then c1 - 1 else c1;
    var b0 := if b1 < 0 then c0 - 1 else c0;
    var a, b, c := Carried(b0), Carried(b1), Carried(c2);
    CarriedIs(b0);
    CarriedIs(b1);
    CarriedIs(c2);
    Low24(x, 0x1_0000 * a + 0x100 * b + c, if b0 < 0 then -1 else 0);
    Octets(0x1_0000 * a + 0x100 * b + c, a, b, c);
  }

  function Carried(n: int): int { if n < 0 then n + 256 else n }

  lemma CarriedIs(n: int)
    requires -129 <= n < 128
    ensures Carried(n) == n % 256 && 0 <= Carried(n) < 256
  {
  }

  /** A pad replaces a character that stands for zero bits. */
  lemma PadsAreZero(s: seq<int>, p: nat)
    requires Bytes(s) && 4 * Triples(|s|) - Padding(|s|) <= p < 4 * Triples(|s|)
    ensures Sextet(PackAt(s, p / 4), 3 - p % 4) == 0
  {
    var k, n := p / 4, |s|;
    assert k == Triples(n) - 1;
    var x := 0x1_0000 * Signed(At(s, 3 * k)) + 0x100 * Signed(At(s, 3 * k + 1)) + Signed(At(s, 3 * k + 2));
    assert At(s, 3 * k + 2) == 0;
    if n % 3 == 2 {
      assert p % 4 == 3;
      LowBits(x, 0x100 * Signed(At(s, 3 * k)) + Signed(At(s, 3 * k + 1)));
    } else {
      assert n % 3 == 1 && p % 4 >= 2 && At(s, 3 * k + 1) == 0;
      LowBits(x, 0x100 * Signed(At(s, 3 * k)));
      if p % 4 == 2 {
        LowerBits(x, Signed(At(s, 3 * k)));
      }
    }
  }

  lemma LowBits(x: int, y: int)
    requires x == 0x100 * y
    ensures Sextet(x % WORD, 0) == 0
  {
    assert x % WORD == 0x100 * (y - 0x100_0000 * (x / WORD));
  }

  lemma LowerBits(x: int, y: int)
    requires x == 0x1_0000 * y
    ensures Sextet(x % WORD, 1) == 0
  {
    Multiple(x, y);
    LowerDigit(x % WORD, y - 0x1_0000 * (x / WORD));
  }

  lemma Multiple(x: int, y: int)
    requires x == 0x1_0000 * y
    ensures x % WORD == 0x1_0000 * (y - 0x1_0000 * (x / WORD))
  {
  }

  lemma LowerDigit(r: int, z: int)
    requires r == 0x1_0000 * z
    ensures Sextet(r, 1) == 0
  {
    assert r / 0x40 == 0x400 * z;
  }

  lemma InverseOfAlphabet(d: int, beyond: int)
    requires 0 <= d < 64
    ensures Alphabet(d) != 123 && Alphabet(d) != PAD && Inverse(Alphabet(d), beyond) == d
  {
  }

  lemma EncodeAt(s: seq<int>, p: nat)
    requires p < 4 * Triples(|s|)
    ensures Encode(s)[p] == if p < 4 * Triples(|s|) - Padding(|s|)
                            then Alphabet(Sextet(PackAt(s, p / 4), 3 - p % 4)) else PAD
  {
    assert Raw(s)[p] == Alphabet(Sextet(PackAt(s, p / 4), 3 - p % 4));
  }

  /** The encoding uses the alphabet, then the padding that its length asks for. */
  lemma EncodedShape(s: seq<int>)
    requires Bytes(s)
    ensures 123 !in Encode(s)
    ensures |Encode(s)| == 4 * Triples(|s|) && TrailingPads(Encode(s)) == Padding(|s|)
  {
    var t, n := Encode(s), 4 * Triples(|s|);
    hide Encode, PackAt, Sextet, Alphabet, Inverse;
    forall p | 0 <= p < n
      ensures t[p] != 123 && (t[p] == PAD <==> p >= n - Padding(|s|))
    {
      EncodeAt(s, p);
      InverseOfAlphabet(Sextet(PackAt(s, p / 4), 3 - p % 4), 0);
    }
    PadsCounted(t, Padding(|s|));
  }

  lemma {:induction false} PadsCounted(t: seq<int>, pads: nat)
    requires pads <= |t| && forall p :: 0 <= p < |t| ==> (t[p] == PAD <==> p >= |t| - pads)
    ensures TrailingPads(t) == pads
    decreases pads
  {
    if pads > 0 {
      PadsCounted(t[..|t| - 1], pads - 1);
    }
  }

  /** Each group of four characters brings back the 24 bits of its triple. */
  lemma GroupBack(s: seq<int>, k: nat, beyond: int)
    requires Bytes(s) && k < Triples(|s|)
    ensures UnpackAt(Encode(s), k, beyond) == PackAt(s, k) % 0x100_0000
  {
    hide Encode, DigitAt, Sextet, Unpack, PackAt, Bytes;
    CharacterBack(s, 4 * k, beyond);
    CharacterBack(s, 4 * k + 1, beyond);
    CharacterBack(s, 4 * k + 2, beyond);
    CharacterBack(s, 4 * k + 3, beyond);
    GroupIndex(k);
    SextetsBack(PackAt(s, k));
  }

  lemma GroupIndex(k: nat)
    ensures 4 * k / 4 == k && (4 * k + 1) / 4 == k && (4 * k + 2) / 4 == k && (4 * k + 3) / 4 == k
    ensures 4 * k % 4 == 0 && (4 * k + 1) % 4 == 1 && (4 * k + 2) % 4 == 2 && (4 * k + 3) % 4 == 3
  {
  }

  lemma CharacterBack(s: seq<int>, p: nat, beyond: int)
    requires Bytes(s) && p < 4 * Triples(|s|)
    ensures DigitAt(Encode(s), p, beyond) == Sextet(PackAt(s, p / 4), 3 - p % 4)
  {
    EncodeAt(s, p);
    if p < 4 * Triples(|s|) - Padding(|s|) {
      InverseOfAlphabet(Sextet(PackAt(s, p / 4), 3 - p % 4), beyond);
    } else {
      PadsAreZero(s, p);
      assert Inverse(PAD, beyond) == 0;
    }
    hide Encode, Sextet, PackAt, Inverse, Alphabet;
  }

  /** The bytes that come back, whatever the string was. */
  lemma DecodedEncoding(s: seq<int>, beyond: int)
    requires Bytes(s)
    ensures |Decode(Encode(s), beyond)| == |s|
    ensures forall p :: 0 <= p < |s| ==>
              Decode(Encode(s), beyond)[p] == Octet(PackAt(s, p / 3) % 0x100_0000, 2 - p % 3)
  {
    EncodedShape(s);
    var t := Encode(s);
    SizesMatch(|s|);
    hide Encode, Octet, PackAt, UnpackAt, TrailingPads, Triples, Padding, Quadruples;
    forall p | 0 <= p < |s|
      ensures Decode(t, beyond)[p] == Octet(PackAt(s, p / 3) % 0x100_0000, 2 - p % 3)
    {
      InTriple(|s|, p);
      GroupBack(s, p / 3, beyond);
      DecodedAt(t, p, beyond);
    }
  }

  lemma SizesMatch(n: nat)
    ensures Quadruples(4 * Triples(n)) == Triples(n) && 3 * Triples(n) - Padding(n) == n
    ensures Padding(n) == 3 * Triples(n) ==> n == 0
  {
  }

  lemma InTriple(n: nat, p: nat)
    requires p < n
    ensures p / 3 < Triples(n)
  {
  }

  lemma DecodedAt(t: seq<int>, p: nat, beyond: int)
    requires p < 3 * Quadruples(|t|)
    ensures Decoded(t, beyond)[p] == Octet(UnpackAt(t, p / 3, beyond), 2 - p % 3)
  {
    hide UnpackAt, Octet, Quadruples;
  }

  lemma TripleBack(s: seq<int>, k: nat)
    requires Bytes(s) && 3 * k < |s|
    ensures var v := PackAt(s, k) % 0x100_0000;
            var c1, c2 := Signed(At(s, 3 * k + 1)), Signed(At(s, 3 * k + 2));
            && (Octet(v, 2) == s[3 * k] <==> 0x100 * c1 + c2 >= 0)
            && (Octet(v, 1) == At(s, 3 * k + 1) <==> c2 >= 0)
            && Octet(v, 0) == At(s, 3 * k + 2)
  {
    var c0, c1, c2 := Signed(s[3 * k]), Signed(At(s, 3 * k + 1)), Signed(At(s, 3 * k + 2));
    OctetsBack(c0, c1, c2);
    hide Octet, Pack;
    CarriedIs(c0);
    CarriedIs(c1);
    CarriedIs(c2);
    CarriedIs(c0 - 1);
    CarriedIs(c1 - 1);
  }

  /** Decoding undoes encoding if and only if no second or third byte of a triple is 128 or more; in
      particular for every string of 7-bit bytes. */
  lemma RoundTripIff(s: seq<int>, beyond: int)
    requires Bytes(s)
    ensures Decode(Encode(s), beyond) == s <==> forall i :: 0 <= i < |s| && i % 3 != 0 ==> s[i] < 128
  {
    DecodedEncoding(s, beyond);
    var r := Decode(Encode(s), beyond);
    hide Encode, Decode, Octet, PackAt;
    if i :| 0 <= i < |s| && i % 3 != 0 && s[i] >= 128 {
      WrongByte(s, r, i);
    } else {
      forall p | 0 <= p < |s| ensures r[p] == s[p] {
        RightByte(s, r, p);
      }
    }
  }

  predicate ComesBackAs(s: seq<int>, r: seq<int>) {
    |r| == |s| && forall p :: 0 <= p < |s| ==> r[p] == Octet(PackAt(s, p / 3) % 0x100_0000, 2 - p % 3)
  }

  lemma WrongByte(s: seq<int>, r: seq<int>, i: nat)
    requires Bytes(s) && ComesBackAs(s, r) && i < |s| && i % 3 != 0 && s[i] >= 128
    ensures r != s
  {
    hide Octet, PackAt;
    var k := i / 3;
    TripleBack(s, k);
    if i % 3 == 2 {
      assert i == 3 * k + 2 && r[3 * k + 1] != s[3 * k + 1];
    } else {
      assert i == 3 * k + 1 && r[3 * k] != s[3 * k];
    }
  }

  lemma RightByte(s: seq<int>, r: seq<int>, p: nat)
    requires Bytes(s) && ComesBackAs(s, r) && p < |s|
    requires forall i :: 0 <= i < |s| && i % 3 != 0 ==> s[i] < 128
    ensures r[p] == s[p]
  {
    hide Octet, PackAt;
    var k := p / 3;
    TripleBack(s, k);
    assert Signed(At(s, 3 * k + 1)) >= 0 && Signed(At(s, 3 * k + 2)) >= 0;
    assert p == 3 * k || p == 3 * k + 1 || p == 3 * k + 2;
  }

  // ---- the standard

  const UPPER: string := "ABCDEFGHIJKLMNOPQRSTUVWXYZ"
  const LOWER: string := "abcdefghijklmnopqrstuvwxyz"
  const DIGITS: string := "0123456789"
  const ALPHABET: string := UPPER + LOWER + DIGITS + "+/"

  lemma UpperIs(d: int)
    requires 0 <= d < 26
    ensures |UPPER| == 26 && UPPER[d] as int == 65 + d
  {
  }

  lemma LowerIs(d: int)
    requires 0 <= d < 26
    ensures |LOWER| == 26 && LOWER[d] as int == 97 + d
  {
  }

  lemma DigitIs(d: int)
    requires 0 <= d < 10
    ensures |DIGITS| == 10 && DIGITS[d] as int == 48 + d
  {
  }

  lemma Joined(u: string, l: string, g: string, e: string, d: int)
    requires |u| == 26 && |l| == 26 && |g| == 10 && |e| == 2 && 0 <= d < 64
    ensures (u + l + g + e)[d]
         == if d < 26 then u[d] else if d < 52 then l[d - 26] else if d < 62 then g[d - 52] else e[d - 62]
  {
  }

  /** Six bits are sent as the character that stands at their number in the alphabet. */
  lemma AlphabetIs(d: int)
    requires 0 <= d < 64
    ensures |ALPHABET| == 64 && Alphabet(d) == ALPHABET[d] as int
  {
    UpperIs(if d < 26 then d else 0);
    LowerIs(if 26 <= d < 52 then d - 26 else 0);
    DigitIs(if 52 <= d < 62 then d - 52 else 0);
    Joined(UPPER, LOWER, DIGITS, "+/", d);
  }

  /** Bits 8 to 2, 2 to 0 with 8 to 4, 4 to 0 with 8 to 6, and 6 to 0 of the bytes of a triple. */
  function SixBits(b0: int, b1: int, b2: int, j: nat): int {
    if j == 0 then b0 / 4
    else if j == 1 then b0 % 4 * 16 + b1 / 16
    else if j == 2 then b1 % 16 * 4 + b2 / 64
    else b2 % 64
  }

  lemma SixBitsRange(b0: int, b1: int, b2: int, j: nat)
    requires 0 <= b0 < 256 && 0 <= b1 < 256 && 0 <= b2 < 256
    ensures 0 <= SixBits(b0, b1, b2, j) < 64
  {
  }

  /** The encoding of section 4 of RFC 4648: each group of six bits by its character, missing bytes as zero
      bits, and pads for the characters that no byte has a part in. */
  function Standard(s: seq<int>): (r: seq<int>)
    requires Bytes(s)
  {
    var n := 4 * Triples(|s|);
    seq(n, p requires 0 <= p < n =>
      if p >= n - Padding(|s|) then PAD
      else
        var b0, b1, b2 := At(s, 3 * (p / 4)), At(s, 3 * (p / 4) + 1), At(s, 3 * (p / 4) + 2);
        SixBitsRange(b0, b1, b2, p % 4);
        ALPHABET[SixBits(b0, b1, b2, p % 4)] as int)
  }

  lemma StandardAt(s: seq<int>, p: nat)
    requires Bytes(s) && p < 4 * Triples(|s|)
    ensures |Standard(s)| == 4 * Triples(|s|)
    ensures var d := SixBitsAt(s, p / 4, p % 4);
            0 <= d < 64 && Standard(s)[p] == if p < 4 * Triples(|s|) - Padding(|s|) then Alphabet(d) else PAD
  {
    hide Alphabet, SixBits;
    SixBitsRange(At(s, 3 * (p / 4)), At(s, 3 * (p / 4) + 1), At(s, 3 * (p / 4) + 2), p % 4);
    AlphabetIs(SixBitsAt(s, p / 4, p % 4));
  }

  function SixBitsAt(s: seq<int>, k: nat, j: nat): int {
    SixBits(At(s, 3 * k), At(s, 3 * k + 1), At(s, 3 * k + 2), j)
  }

  /** The 24 bits of a triple of bytes. */
  function Bits(s: seq<int>, k: nat): int {
    0x1_0000 * At(s, 3 * k) + 0x100 * At(s, 3 * k + 1) + At(s, 3 * k + 2)
  }

  /** The group that the program sends is the standard one. */
  predicate SameGroup(s: seq<int>, k: nat) {
    && Sextet(PackAt(s, k), 3) == SixBitsAt(s, k, 0)
    && Sextet(PackAt(s, k), 2) == SixBitsAt(s, k, 1)
    && Sextet(PackAt(s, k), 1) == SixBitsAt(s, k, 2)
    && Sextet(PackAt(s, k), 0) == SixBitsAt(s, k, 3)
  }

  lemma BytesAt(s: seq<int>, i: nat)
    requires Bytes(s)
    ensures 0 <= At(s, i) < 256
  {
  }

  lemma SameGroupIff(s: seq<int>, k: nat)
    requires Bytes(s)
    ensures SameGroup(s, k) <==> PackAt(s, k) % 0x100_0000 == Bits(s, k)
  {
    hide PackAt, Sextet, SixBits, At, Bytes, Unpack;
    var enc := PackAt(s, k);
    BytesAt(s, 3 * k);
    BytesAt(s, 3 * k + 1);
    BytesAt(s, 3 * k + 2);
    SextetsBack(enc);
    SixBitsBack(At(s, 3 * k), At(s, 3 * k + 1), At(s, 3 * k + 2));
    DigitsDetermine(Sextet(enc, 3), Sextet(enc, 2), Sextet(enc, 1), Sextet(enc, 0),
                    SixBitsAt(s, k, 0), SixBitsAt(s, k, 1), SixBitsAt(s, k, 2), SixBitsAt(s, k, 3));
  }

  lemma SixBitsBack(b0: int, b1: int, b2: int)
    requires 0 <= b0 < 256 && 0 <= b1 < 256 && 0 <= b2 < 256
    ensures var x0, x1 := SixBits(b0, b1, b2, 0), SixBits(b0, b1, b2, 1);
            var x2, x3 := SixBits(b0, b1, b2, 2), SixBits(b0, b1, b2, 3);
            && Unpack(x0, x1, x2, x3) == 0x1_0000 * b0 + 0x100 * b1 + b2
            && 0 <= x0 < 64 && 0 <= x1 < 64 && 0 <= x2 < 64 && 0 <= x3 < 64
  {
  }

  lemma DigitsDetermine(d0: int, d1: int, d2: int, d3: int, x0: int, x1: int, x2: int, x3: int)
    requires 0 <= d0 < 64 && 0 <= d1 < 64 && 0 <= d2 < 64 && 0 <= d3 < 64
    requires 0 <= x0 < 64 && 0 <= x1 < 64 && 0 <= x2 < 64 && 0 <= x3 < 64
    ensures Unpack(d0, d1, d2, d3) == Unpack(x0, x1, x2, x3) <==> d0 == x0 && d1 == x1 && d2 == x2 && d3 == x3
  {
    Small(0x4_0000 * d0 + 0x1000 * d1 + 0x40 * d2 + d3);
    Small(0x4_0000 * x0 + 0x1000 * x1 + 0x40 * x2 + x3);
    if Unpack(d0, d1, d2, d3) == Unpack(x0, x1, x2, x3) {
      LastDigit(0x1000 * d0 + 0x40 * d1 + d2, d3, 0x1000 * x0 + 0x40 * x1 + x2, x3);
      LastDigit(0x40 * d0 + d1, d2, 0x40 * x0 + x1, x2);
      LastDigit(d0, d1, x0, x1);
    }
  }

  lemma Small(v: int)
    requires 0 <= v < WORD
    ensures v % WORD == v
  {
  }

  lemma LastDigit(h: int, d: int, g: int, x: int)
    requires 0 <= d < 64 && 0 <= x < 64 && 0x40 * h + d == 0x40 * g + x
    ensures h == g && d == x
  {
  }

  /** They are packed when no second or third byte is taken for a negative number. */
  lemma PackedIff(s: seq<int>, k: nat)
    requires Bytes(s) && 3 * k < |s|
    ensures PackAt(s, k) % 0x100_0000 == Bits(s, k) <==> At(s, 3 * k + 1) < 128 && At(s, 3 * k + 2) < 128
  {
    var v := PackAt(s, k) % 0x100_0000;
    var b0, b1, b2 := At(s, 3 * k), At(s, 3 * k + 1), At(s, 3 * k + 2);
    assert 0 <= b0 < 256 && 0 <= b1 < 256 && 0 <= b2 < 256;
    Octets(Bits(s, k), b0, b1, b2);
    OctetsDetermine(v);
    TripleBack(s, k);
    hide PackAt, Octet, At, Bytes;
  }

  lemma OctetsDetermine(v: int)
    requires 0 <= v < 0x100_0000
    ensures v == 0x1_0000 * Octet(v, 2) + 0x100 * Octet(v, 1) + Octet(v, 0)
  {
    assert v / 0x1_0000 == v / 0x100 / 0x100;
  }

  predicate Plain(s: seq<int>) {
    forall i :: 0 <= i < |s| && i % 3 != 0 ==> s[i] < 128
  }

  lemma PlainAt(s: seq<int>, k: nat)
    requires Plain(s)
    ensures At(s, 3 * k + 1) < 128 && At(s, 3 * k + 2) < 128
  {
    assert (3 * k + 1) % 3 == 1 && (3 * k + 2) % 3 == 2;
  }

  lemma PlainIsStandard(s: seq<int>)
    requires Bytes(s) && Plain(s)
    ensures Encode(s) == Standard(s)
  {
    hide Bytes, Plain, Encode, Standard, SameGroup, PackAt, At, Sextet, SixBitsAt;
    EncodedShape(s);
    StandardSize(s);
    forall p | 0 <= p < 4 * Triples(|s|)
      ensures Encode(s)[p] == Standard(s)[p]
    {
      PlainAt(s, p / 4);
      PackedIff(s, p / 4);
      SameGroupIff(s, p / 4);
      SameDigit(s, p / 4, p % 4);
      SameCharacter(s, p);
    }
  }

  lemma StandardIsPlain(s: seq<int>, i: nat)
    requires Bytes(s) && Encode(s) == Standard(s) && i < |s| && i % 3 != 0
    ensures s[i] < 128
  {
    hide Encode, Standard, SameGroup, PackAt;
    InTriple(|s|, i);
    SameText(s, i / 3);
    SameGroupIff(s, i / 3);
    PackedIff(s, i / 3);
    assert i == 3 * (i / 3) + 1 || i == 3 * (i / 3) + 2;
  }

  /** What is encoded is the standard's encoding if and only if no second or third byte of a triple is 128
      or more; in particular for every string of 7-bit bytes. */
  lemma StandardIff(s: seq<int>)
    requires Bytes(s)
    ensures Encode(s) == Standard(s) <==> forall i :: 0 <= i < |s| && i % 3 != 0 ==> s[i] < 128
  {
    hide Encode, Standard;
    if Encode(s) == Standard(s) {
      forall i | 0 <= i < |s| && i % 3 != 0
        ensures s[i] < 128
      {
        StandardIsPlain(s, i);
      }
    } else if Plain(s) {
      PlainIsStandard(s);
    }
  }

  lemma StandardSize(s: seq<int>)
    requires Bytes(s)
    ensures |Standard(s)| == 4 * Triples(|s|)
  {
  }

  lemma SameDigit(s: seq<int>, k: nat, j: nat)
    requires SameGroup(s, k) && j < 4
    ensures Sextet(PackAt(s, k), 3 - j) == SixBitsAt(s, k, j)
  {
    hide PackAt, Sextet, SixBitsAt;
  }

  lemma SameText(s: seq<int>, k: nat)
    requires Bytes(s) && k < Triples(|s|) && Encode(s) == Standard(s)
    ensures SameGroup(s, k)
  {
    hide Encode, Standard, PackAt, Sextet, SixBits, SixBitsAt;
    GroupIndex(k);
    SameCharacter(s, 4 * k);
    SameCharacter(s, 4 * k + 1);
    SameCharacter(s, 4 * k + 2);
    SameCharacter(s, 4 * k + 3);
  }

  /** Alike characters stand for alike bits, and pads for none. */
  lemma SameCharacter(s: seq<int>, p: nat)
    requires Bytes(s) && p < 4 * Triples(|s|)
    ensures |Encode(s)| == |Standard(s)| == 4 * Triples(|s|)
    ensures Encode(s)[p] == Standard(s)[p] <==> Sextet(PackAt(s, p / 4), 3 - p % 4) == SixBitsAt(s, p / 4, p % 4)
  {
    hide Encode, Standard, PackAt, Sextet, Alphabet, Inverse, SixBitsAt;
    EncodeAt(s, p);
    StandardAt(s, p);
    if p < 4 * Triples(|s|) - Padding(|s|) {
      InverseOfAlphabet(Sextet(PackAt(s, p / 4), 3 - p % 4), 0);
      InverseOfAlphabet(SixBitsAt(s, p / 4, p % 4), 0);
    } else {
      PadsAreZero(s, p);
      PadsAreNoBits(s, p);
    }
  }

  lemma PadsAreNoBits(s: seq<int>, p: nat)
    requires Bytes(s) && 4 * Triples(|s|) - Padding(|s|) <= p < 4 * Triples(|s|)
    ensures SixBitsAt(s, p / 4, p % 4) == 0
  {
  }
}
