/** Strict standard-alphabet Base64, padded or raw: what the text of a byte string is. */
module Base64 {
  import opened Core

  const PAD: Byte := 61  // '='

  /** The value of one alphabet letter, -1 outside the alphabet. */
  function Digit(c: Byte): (d: int)
    ensures -1 <= d < 64
  {
    if 65 <= c <= 90 then c - 65
    else if 97 <= c <= 122 then c - 97 + 26
    else if 48 <= c <= 57 then c - 48 + 52
    else if c == 43 then 62
    else if c == 47 then 63
    else -1
  }

  type Six = x: int | 0 <= x < 64

  /** The alphabet, indexed by digit value. */
  function Letter(d: Six): (c: Byte)
    ensures Digit(c) == d && c != PAD
  {
    if d < 26 then 65 + d
    else if d < 52 then 97 + d - 26
    else if d < 62 then 48 + d - 52
    else if d == 62 then 43
    else 47
  }

  lemma LetterOfDigit(c: Byte)
    requires Digit(c) >= 0
    ensures Letter(Digit(c)) == c
  {
  }

  // ---- regrouping eight bits into six and back

  /** Six-bit digits needed for n bytes. */
  function RawLength(n: nat): nat { n / 3 * 4 + if n % 3 == 0 then 0 else n % 3 + 1 }

  /** Bytes carried by m six-bit digits. */
  function ByteLength(m: nat): nat { m / 4 * 3 + if m % 4 == 0 then 0 else m % 4 - 1 }

  function At(x: Bytes, i: nat): Byte { if i < |x| then x[i] else 0 }

  lemma AtInside(x: Bytes, i: nat)
    requires i < |x|
    ensures At(x, i) == x[i]
  {
  }

  // The bit moves between three octets a, b, c and four digits p, q, r, s.
  function First6(a: Byte): Six { a / 4 }
  function Second6(a: Byte, b: Byte): Six { a % 4 * 16 + b / 16 }
  function Third6(b: Byte, c: Byte): Six { b % 16 * 4 + c / 64 }
  function Fourth6(c: Byte): Six { c % 64 }
  function First8(p: Six, q: Six): Byte { (p as int) * 4 + q / 16 }
  function Second8(q: Six, r: Six): Byte { (q as int) % 16 * 16 + r / 4 }
  function Third8(r: Six, s: Six): Byte { (r as int) % 4 * 64 + s }

  lemma Split(a: Byte, b: Byte, c: Byte)
    ensures First8(First6(a), Second6(a, b)) == a
    ensures Second8(Second6(a, b), Third6(b, c)) == b
    ensures Third8(Third6(b, c), Fourth6(c)) == c
  {
  }

  lemma Merge(p: Six, q: Six, r: Six, s: Six)
    ensures First6(First8(p, q)) == p
    ensures Second6(First8(p, q), Second8(q, r)) == q
    ensures Third6(Second8(q, r), Third8(r, s)) == r
    ensures Fourth6(Third8(r, s)) == s
  {
  }

  /** Digit r of the four spelling the k-th byte triple; bits past the end are zero. */
  function Sextet(x: Bytes, k: nat, r: nat): Six
  {
    if r == 0 then First6(At(x, 3 * k))
    else if r == 1 then Second6(At(x, 3 * k), At(x, 3 * k + 1))
    else if r == 2 then Third6(At(x, 3 * k + 1), At(x, 3 * k + 2))
    else Fourth6(At(x, 3 * k + 2))
  }

  function Sextets(x: Bytes): (d: seq<Six>)
    ensures |d| == RawLength(|x|)
  {
    seq(RawLength(|x|), j requires 0 <= j => Sextet(x, j / 4, j % 4))
  }

  function Dig(d: seq<Six>, i: nat): Six { if i < |d| then d[i] else 0 }

  lemma DigInside(d: seq<Six>, i: nat)
    requires i < |d|
    ensures Dig(d, i) == d[i]
  {
  }

  /** Byte r of the three spelled by the k-th digit quadruple. */
  function Octet(d: seq<Six>, k: nat, r: nat): Byte
  {
    if r == 0 then First8(Dig(d, 4 * k), Dig(d, 4 * k + 1))
    else if r == 1 then Second8(Dig(d, 4 * k + 1), Dig(d, 4 * k + 2))
    else Third8(Dig(d, 4 * k + 2), Dig(d, 4 * k + 3))
  }

  function Octets(d: seq<Six>): (x: Bytes)
    ensures |x| == ByteLength(|d|)
  {
    seq(ByteLength(|d|), j requires 0 <= j => Octet(d, j / 3, j % 3))
  }

  /** The bits of the last digit that no byte uses are zero. */
  predicate CanonicalTail(d: seq<Six>)
  {
    && (|d| % 4 == 2 ==> d[|d| - 1] % 16 == 0)
    && (|d| % 4 == 3 ==> d[|d| - 1] % 4 == 0)
  }

  lemma Lengths(n: nat)
    ensures ByteLength(RawLength(n)) == n
    ensures RawLength(n) % 4 == (if n % 3 == 0 then 0 else n % 3 + 1)
  {
    assert n == 3 * (n / 3) + n % 3;
  }

  lemma LengthsBack(m: nat)
    requires m % 4 != 1
    ensures RawLength(ByteLength(m)) == m
    ensures ByteLength(m) % 3 == (if m % 4 == 0 then 0 else m % 4 - 1)
  {
    assert m == 4 * (m / 4) + m % 4;
  }

  lemma DigOfSextets(x: Bytes, k: nat, r: nat)
    requires r < 4 && 4 * k + r < RawLength(|x|)
    ensures Dig(Sextets(x), 4 * k + r) == Sextet(x, k, r)
  {
    assert (4 * k + r) / 4 == k && (4 * k + r) % 4 == r;
  }

  lemma AtOfOctets(d: seq<Six>, k: nat, r: nat)
    requires r < 3 && 3 * k + r < ByteLength(|d|)
    ensures At(Octets(d), 3 * k + r) == Octet(d, k, r)
  {
    assert (3 * k + r) / 3 == k && (3 * k + r) % 3 == r;
  }

  /** Byte 3k+r exists exactly when digit 4k+r+1 does. */
  lemma Extent(n: nat, m: nat, k: nat, r: nat)
    requires r < 3 && m % 4 != 1 && n == ByteLength(m)
    ensures 3 * k + r < n <==> 4 * k + r + 1 < m
  {
    assert m == 4 * (m / 4) + m % 4;
  }

  lemma OctetOfSextets(x: Bytes, k: nat, r: nat)
    requires r < 3 && 3 * k + r < |x|
    ensures Octet(Sextets(x), k, r) == x[3 * k + r]
  {
    hide At, Dig, Sextets, RawLength, First6, Second6, Third6, Fourth6, First8, Second8, Third8;
    Split(At(x, 3 * k), At(x, 3 * k + 1), At(x, 3 * k + 2));
    if r == 0 {
      DigitsOfByte(x, k, 0);
    } else if r == 1 {
      DigitsOfByte(x, k, 1);
    } else {
      DigitsOfByte(x, k, 2);
    }
    AtInside(x, 3 * k + r);
  }

  lemma DigitsOfByte(x: Bytes, k: nat, r: nat)
    requires r < 3 && 3 * k + r < |x|
    ensures Dig(Sextets(x), 4 * k + r) == Sextet(x, k, r)
    ensures Dig(Sextets(x), 4 * k + r + 1) == Sextet(x, k, r + 1)
  {
    Lengths(|x|);
    Extent(|x|, RawLength(|x|), k, r);
    DigOfSextets(x, k, r);
    DigOfSextets(x, k, r + 1);
  }

  lemma OctetsOfSextets(x: Bytes)
    ensures Octets(Sextets(x)) == x
    ensures CanonicalTail(Sextets(x))
  {
    hide Sextets, Octet, RawLength, ByteLength, CanonicalTail;
    Lengths(|x|);
    forall j | 0 <= j < |x| ensures Octets(Sextets(x))[j] == x[j] {
      OctetOfSextets(x, j / 3, j % 3);
    }
    TailOfSextets(x);
  }

  lemma TailOfSextets(x: Bytes)
    ensures CanonicalTail(Sextets(x))
  {
    hide Sextet, Sextets;
    var k, r := |x| / 3, |x| % 3;
    assert |x| == 3 * k + r;
    Lengths(|x|);
    if r != 0 {
      assert RawLength(|x|) == 4 * k + r + 1;
      DigOfSextets(x, k, r);
      LastSextet(x, k, r);
    }
  }

  lemma LastSextet(x: Bytes, k: nat, r: nat)
    requires |x| == 3 * k + r
    ensures r == 1 ==> Sextet(x, k, 1) % 16 == 0
    ensures r == 2 ==> Sextet(x, k, 2) % 4 == 0
  {
  }

  lemma SextetOfOctets(d: seq<Six>, k: nat, r: nat)
    requires |d| % 4 != 1 && CanonicalTail(d) && r < 4 && 4 * k + r < |d|
    ensures Sextet(Octets(d), k, r) == d[4 * k + r]
  {
    hide At, Dig, Octets, First6, Second6, Third6, Fourth6, First8, Second8, Third8;
    TripleOfOctets(d, k);
    Merge(Dig(d, 4 * k), Dig(d, 4 * k + 1), Dig(d, 4 * k + 2), Dig(d, 4 * k + 3));
    DigInside(d, 4 * k + r);
  }

  lemma TripleOfOctets(d: seq<Six>, k: nat)
    requires |d| % 4 != 1 && CanonicalTail(d) && 4 * k < |d|
    ensures At(Octets(d), 3 * k) == Octet(d, k, 0)
    ensures At(Octets(d), 3 * k + 1) == Octet(d, k, 1)
    ensures At(Octets(d), 3 * k + 2) == Octet(d, k, 2)
  {
    forall r | 0 <= r < 3 ensures At(Octets(d), 3 * k + r) == Octet(d, k, r) {
      Extent(ByteLength(|d|), |d|, k, r);
      if 3 * k + r < ByteLength(|d|) { AtOfOctets(d, k, r); }
      else { UnusedOctet(d, k, r); }
    }
  }

  /** A byte that the digits do not reach has only zero bits. */
  lemma UnusedOctet(d: seq<Six>, k: nat, r: nat)
    requires |d| % 4 != 1 && CanonicalTail(d) && 4 * k < |d| && 1 <= r < 3 && 4 * k + r + 1 >= |d|
    ensures Octet(d, k, r) == 0
  {
    if 4 * k + 2 == |d| { assert d[4 * k + 1] % 16 == 0; }
    else { assert 4 * k + 3 == |d| && d[4 * k + 2] % 4 == 0; }
  }

  lemma SextetsOfOctets(d: seq<Six>)
    requires |d| % 4 != 1 && CanonicalTail(d)
    ensures Sextets(Octets(d)) == d
  {
    hide Octets, Sextet, RawLength, ByteLength;
    LengthsBack(|d|);
    forall j | 0 <= j < |d| ensures Sextets(Octets(d))[j] == d[j] {
      SextetOfOctets(d, j / 4, j % 4);
    }
  }

  // ---- letters and padding

  function TextLength(n: nat, padded: bool): nat
  {
    n / 3 * 4 + if n % 3 == 0 then 0 else if padded then 4 else n % 3 + 1
  }

  function Letters(d: seq<Six>): (b: Bytes)
    ensures |b| == |d|
  {
    seq(|d|, i requires 0 <= i < |d| => Letter(d[i]))
  }

  function Pads(n: nat): Bytes { seq(n, i => PAD) }

  function Encode(x: Bytes, padded: bool): (s: Bytes)
    ensures |s| == TextLength(|x|, padded)
  {
    Letters(Sextets(x)) + Pads(TextLength(|x|, padded) - RawLength(|x|))
  }

  /** Text with its padding removed: at most two trailing pad letters count as padding. */
  function Body(s: Bytes, padded: bool): (b: Bytes)
    ensures b <= s
  {
    if !padded || s == [] || s[|s| - 1] != PAD then s
    else if |s| > 1 && s[|s| - 2] == PAD then s[..|s| - 2]
    else s[..|s| - 1]
  }

  predicate LengthOk(s: Bytes, padded: bool)
  {
    (padded ==> |s| % 4 == 0) && |Body(s, padded)| % 4 != 1
  }

  predicate AllDigits(b: Bytes) { forall i :: 0 <= i < |b| ==> Digit(b[i]) >= 0 }

  function Values(b: Bytes): (d: seq<Six>)
    requires AllDigits(b)
    ensures |d| == |b|
  {
    seq(|b|, i requires 0 <= i < |b| => Digit(b[i]))
  }

  /** Canonical text: proper length and padding, alphabet letters only, unused bits zero. */
  predicate Accepted(s: Bytes, padded: bool)
  {
    var b := Body(s, padded);
    LengthOk(s, padded) && AllDigits(b) && CanonicalTail(Values(b))
  }

  function Decode(s: Bytes, padded: bool): Option<Bytes>
  {
    if Accepted(s, padded) then Some(Octets(Values(Body(s, padded)))) else None
  }

  lemma TextLengths(n: nat, padded: bool)
    ensures RawLength(n) <= TextLength(n, padded) <= RawLength(n) + 2
    ensures !padded ==> TextLength(n, padded) == RawLength(n)
    ensures padded ==> TextLength(n, padded) % 4 == 0
    ensures RawLength(n) % 4 != 1
  {
  }

  lemma BodyOf(b: Bytes, pads: nat, padded: bool)
    requires pads <= 2 && (!padded ==> pads == 0) && PAD !in b
    ensures Body(b + Pads(pads), padded) == b
  {
    var s := b + Pads(pads);
    assert b != [] ==> b[|b| - 1] in b;
    assert s[..|b|] == b;
  }

  lemma BodyOfEncode(x: Bytes, padded: bool)
    ensures Body(Encode(x, padded), padded) == Letters(Sextets(x))
    ensures LengthOk(Encode(x, padded), padded)
  {
    TextLengths(|x|, padded);
    BodyOf(Letters(Sextets(x)), TextLength(|x|, padded) - RawLength(|x|), padded);
  }

  /** Every byte string survives encoding and decoding, in both padding modes. */
  lemma DecodeOfEncode(x: Bytes, padded: bool)
    ensures Decode(Encode(x, padded), padded) == Some(x)
  {
    BodyOfEncode(x, padded);
    OctetsOfSextets(x);
    assert Values(Letters(Sextets(x))) == Sextets(x);
  }

  lemma PadCount(m: nat, total: nat, padded: bool)
    requires m % 4 != 1 && m <= total <= m + 2
    requires if padded then total % 4 == 0 else total == m
    ensures total == TextLength(ByteLength(m), padded)
  {
    var q, r := m / 4, m % 4;
    assert m == 4 * q + r;
    if r != 0 {
      assert ByteLength(m) == 3 * q + (r - 1);
      assert (3 * q + (r - 1)) / 3 == q && (3 * q + (r - 1)) % 3 == r - 1;
    } else {
      assert ByteLength(m) == 3 * q;
    }
  }

  lemma PaddingOf(s: Bytes, padded: bool)
    requires LengthOk(s, padded)
    ensures s == Body(s, padded) + Pads(|s| - |Body(s, padded)|)
    ensures |s| == TextLength(ByteLength(|Body(s, padded)|), padded)
  {
    hide TextLength, ByteLength;
    PadCount(|Body(s, padded)|, |s|, padded);
  }

  /** Every accepted text is the encoding of what it decodes to: no second spelling exists. */
  lemma EncodeOfDecode(s: Bytes, padded: bool)
    requires Decode(s, padded).Some?
    ensures Encode(Decode(s, padded).value, padded) == s
  {
    var b := Body(s, padded);
    SextetsOfOctets(Values(b));
    forall i | 0 <= i < |b| ensures Letters(Values(b))[i] == b[i] { LetterOfDigit(b[i]); }
    assert Letters(Values(b)) == b;
    PaddingOf(s, padded);
  }

  // ---- the two loops

  lemma EncodeAt(x: Bytes, padded: bool, k: nat, r: nat)
    requires r < 4 && 4 * k + r < TextLength(|x|, padded)
    ensures Encode(x, padded)[4 * k + r] == if 4 * k + r < RawLength(|x|) then Letter(Sextet(x, k, r)) else PAD
  {
    TextLengths(|x|, padded);
    assert (4 * k + r) / 4 == k && (4 * k + r) % 4 == r;
  }

  lemma Radix64(x3: int, x2: int, x1: int, x0: int, word: int)
    requires 0 <= x3 < 64 && 0 <= x2 < 64 && 0 <= x1 < 64 && 0 <= x0 < 64
    requires word == x3 * 262144 + x2 * 4096 + x1 * 64 + x0
    ensures word / 262144 % 64 == x3 && word / 4096 % 64 == x2 && word / 64 % 64 == x1 && word % 64 == x0
  {
    assert word / 64 == x3 * 4096 + x2 * 64 + x1;
    assert word / 4096 == x3 * 64 + x2;
    assert word / 262144 == x3;
  }

  /** The four shifts of a 24-bit word are its four digits. */
  lemma WordDigits(a: Byte, b: Byte, c: Byte, word: int)
    requires word == a * 65536 + b * 256 + c
    ensures word / 262144 % 64 == First6(a)
    ensures word / 4096 % 64 == Second6(a, b)
    ensures word / 64 % 64 == Third6(b, c)
    ensures word % 64 == Fourth6(c)
  {
    Radix64(a / 4, a % 4 * 16 + b / 16, b % 16 * 4 + c / 64, c % 64, word);
  }

  /** How far the text reaches once the k-th triple is written. */
  lemma Reach(n: nat, k: nat, padded: bool)
    requires 3 * k < n
    ensures n - 3 * k == 1 ==>
        RawLength(n) == 4 * k + 2 && TextLength(n, padded) == if padded then 4 * k + 4 else 4 * k + 2
    ensures n - 3 * k == 2 ==>
        RawLength(n) == 4 * k + 3 && TextLength(n, padded) == if padded then 4 * k + 4 else 4 * k + 3
    ensures n - 3 * k > 2 ==> RawLength(n) >= 4 * k + 4 && TextLength(n, padded) >= 4 * k + 4
    ensures n - 3 * k == 3 ==> RawLength(n) == TextLength(n, padded) == 4 * k + 4
  {
  }

  /** The letters of four digits that carry `left` bytes (more than three count as three). */
  function Quad(d0: Six, d1: Six, d2: Six, d3: Six, left: nat, padded: bool): (q: Bytes)
    requires left > 0
    ensures |q| == if padded || left > 2 then 4 else left + 1
  {
    [Letter(d0), Letter(d1)]
    + (if left > 1 then [Letter(d2)] else if padded then [PAD] else [])
    + (if left > 2 then [Letter(d3)] else if padded then [PAD] else [])
  }

  method PutQuad(d0: Six, d1: Six, d2: Six, d3: Six, left: nat, padded: bool, out: array<Byte>, at: nat)
      returns (n: nat)
    requires left > 0 && at + |Quad(d0, d1, d2, d3, left, padded)| <= out.Length
    modifies out
    ensures n == |Quad(d0, d1, d2, d3, left, padded)|
    ensures forall j :: at <= j < at + n ==> out[j] == Quad(d0, d1, d2, d3, left, padded)[j - at]
    ensures forall j :: 0 <= j < at || at + n <= j < out.Length ==> out[j] == old(out[j])
  {
    hide Letter;
    out[at] := Letter(d0);
    out[at + 1] := Letter(d1);
    n := 2;
    if left > 1 { out[at + n] := Letter(d2); n := n + 1; }
    else if padded { out[at + n] := PAD; n := n + 1; }
    if left > 2 { out[at + n] := Letter(d3); n := n + 1; }
    else if padded { out[at + n] := PAD; n := n + 1; }
  }

  function QuadAt(x: Bytes, padded: bool, k: nat): Bytes
    requires 3 * k < |x|
  {
    Quad(Sextet(x, k, 0), Sextet(x, k, 1), Sextet(x, k, 2), Sextet(x, k, 3), |x| - 3 * k, padded)
  }

  /** The letters of the k-th triple are the text at 4k. */
  lemma QuadText(x: Bytes, padded: bool, k: nat)
    requires 3 * k < |x|
    ensures var q, s := QuadAt(x, padded, k), Encode(x, padded);
            && 4 * k + |q| <= |s| && (forall j :: 0 <= j < |q| ==> s[4 * k + j] == q[j])
            && (|x| - 3 * k <= 3 ==> 4 * k + |q| == |s|)
            && (|x| - 3 * k > 3 ==> |q| == 4)
  {
    hide TextLength, RawLength, Encode, Letter, Sextet;
    Reach(|x|, k, padded);
    EncodeAt(x, padded, k, 0);
    EncodeAt(x, padded, k, 1);
    if padded || |x| - 3 * k > 1 { EncodeAt(x, padded, k, 2); }
    if padded || |x| - 3 * k > 2 { EncodeAt(x, padded, k, 3); }
    var q, s := QuadAt(x, padded, k), Encode(x, padded);
    assert 2 < |q| ==> s[4 * k + 2] == q[2];
    assert 3 < |q| ==> s[4 * k + 3] == q[3];
  }

  /** Packs up to three bytes from position 3k into a 24-bit word and shifts its digits out. */
  method TakeDigits(input: Bytes, i: nat, ghost k: nat) returns (d0: Six, d1: Six, d2: Six, d3: Six, next: nat)
    requires i == 3 * k < |input|
    ensures d0 == Sextet(input, k, 0) && d1 == Sextet(input, k, 1) && d2 == Sextet(input, k, 2)
        && d3 == Sextet(input, k, 3)
    ensures next == Min(i + 3, |input|)
  {
    var left := |input| - i;
    var word: int := (input[i] as int) * 65536;
    next := i + 1;
    if left > 1 { word := word + (input[next] as int) * 256; next := next + 1; }
    if left > 2 { word := word + input[next]; next := next + 1; }
    WordDigits(At(input, i), At(input, i + 1), At(input, i + 2), word);
    d0, d1, d2, d3 := word / 262144 % 64, word / 4096 % 64, word / 64 % 64, word % 64;
  }

  /** The encoding loop, once the text is known to fit. */
  method EncodeLoop(input: Bytes, padded: bool, out: array<Byte>, at: nat) returns (pos: nat)
    requires at + TextLength(|input|, padded) <= out.Length
    modifies out
    ensures pos == TextLength(|input|, padded) && out[at..at + pos] == Encode(input, padded)
    ensures forall j :: 0 <= j < at || at + pos <= j < out.Length ==> out[j] == old(out[j])
  {
    hide Letter, Quad, Encode, Sextet, TextLength;
    ghost var text := Encode(input, padded);
    var i := 0;
    pos := 0;
    ghost var k := 0;
    while i < |input|
      invariant i <= |input| && pos <= |text|
      invariant i < |input| ==> i == 3 * k && pos == 4 * k
      invariant i == |input| && input != [] ==> pos == |text|
      invariant forall j :: at <= j < at + pos ==> out[j] == text[j - at]
      invariant forall j :: 0 <= j < at || at + pos <= j < out.Length ==> out[j] == old(out[j])
    {
      var left := |input| - i;
      QuadText(input, padded, k);
      var d0, d1, d2, d3, next := TakeDigits(input, i, k);
      i := next;
      var n := PutQuad(d0, d1, d2, d3, left, padded, out, at + pos);
      pos := pos + n;
      k := k + 1;
    }
    if input == [] { EmptyText(padded); }
  }

  lemma EmptyText(padded: bool)
    ensures Encode([], padded) == []
  {
  }

  /** Encodes `input` into out[at..at+cap]. */
  method EncodeTo(input: Bytes, padded: bool, out: array<Byte>, at: nat, cap: nat) returns (rc: Code, written: nat)
    requires at + cap <= out.Length
    modifies out
    ensures rc == if |input| / 3 > (SIZE_MAX - 4) / 4 || TextLength(|input|, padded) > cap then ErrLimit else Ok
    ensures rc == Ok ==> written == TextLength(|input|, padded) && out[at..at + written] == Encode(input, padded)
    ensures rc != Ok ==> written == 0
    ensures forall j :: 0 <= j < at || at + written <= j < out.Length ==> out[j] == old(out[j])
    ensures TextLength(|input|, padded) > SIZE_MAX ==> rc == ErrLimit
  {
    hide Encode;
    written := 0;
    var rem := |input| % 3;
    if |input| / 3 > (SIZE_MAX - 4) / 4 { return ErrLimit, 0; }
    var need := |input| / 3 * 4 + if rem != 0 then (if padded then 4 else rem + 1) else 0;
    if need > cap { return ErrLimit, 0; }
    written := EncodeLoop(input, padded, out, at);
    rc := Ok;
  }

  /** (bits << 6 | d) in 32 bits. */
  function ShiftedIn(bits: int, d: Six): int { (bits * 64 + d) % U32 }

  /** The low eight bits of bits >> pending. */
  function Emitted(bits: int, pending: int): Byte { bits / Shift(pending) % 256 }

  /** The `pending` low bits of bits. */
  function Remaining(bits: int, pending: int): int
  {
    if pending == 6 then bits % 64 else if pending == 4 then bits % 16 else if pending == 2 then bits % 4 else 0
  }

  /** The accumulator keeps, below `pending`, exactly the bits of the last digit not yet emitted. */
  ghost predicate Accumulated(d: seq<Six>, bits: int, pending: int)
  {
    var i := |d|;
    && (i % 4 == 0 ==> pending == 0)
    && (i % 4 == 1 ==> pending == 6 && bits % 64 == d[i - 1])
    && (i % 4 == 2 ==> pending == 4 && bits % 16 == d[i - 1] % 16)
    && (i % 4 == 3 ==> pending == 2 && bits % 4 == d[i - 1] % 4)
  }

  lemma Residue256(q: int, r: int)
    requires 0 <= r < 256
    ensures (256 * q + r) % 256 == r
  {
  }

  lemma Residue64(q: int, r: int)
    requires 0 <= r < 64
    ensures (64 * q + r) % 64 == r
  {
  }

  lemma Residue16(q: int, r: int)
    requires 0 <= r < 16
    ensures (16 * q + r) % 16 == r
  {
  }

  lemma Residue4(q: int, r: int)
    requires 0 <= r < 4
    ensures (4 * q + r) % 4 == r
  {
  }

  lemma LowBits(low: int, e: int, b: int)
    requires 0 <= e < 64 && b == low * 64 + e
    ensures b % 64 == e && b % 16 == e % 16 && b % 4 == e % 4
  {
    Residue64(low, e);
    Residue16(low * 4 + e / 16, e % 16);
    Residue4(low * 16 + e / 4, e % 4);
  }

  lemma Low6(low: int, e: int)
    requires 0 <= e < 64
    ensures (low * 64 + e) / 16 % 256 == low % 64 * 4 + e / 16
  {
    assert (low * 64 + e) / 16 == low * 4 + e / 16;
    Residue256(low / 64, low % 64 * 4 + e / 16);
  }

  lemma Low4(low: int, e: int)
    requires 0 <= e < 64
    ensures (low * 64 + e) / 4 % 256 == low % 16 * 16 + e / 4
  {
    assert (low * 64 + e) / 4 == low * 16 + e / 4;
    Residue256(low / 16, low % 16 * 16 + e / 4);
  }

  lemma Low2(low: int, e: int)
    requires 0 <= e < 64
    ensures (low * 64 + e) % 256 == low % 4 * 64 + e
  {
    Residue256(low / 4, low % 4 * 64 + e);
  }

  /** Wrapping at 32 bits loses only bits above those any later byte needs. */
  lemma Wrapped(bits: int, e: int) returns (low: int)
    requires 0 <= bits < U32 && 0 <= e < 64
    ensures (bits * 64 + e) % U32 == low * 64 + e
    ensures low % 64 == bits % 64 && low % 16 == bits % 16 && low % 4 == bits % 4
  {
    low := bits - 67108864 * ((bits * 64 + e) / U32);
  }

  /** Shifting left by six and wrapping at 32 bits: what the low bits then hold. */
  lemma ShiftIn(bits: int, e: int, b: int)
    requires 0 <= bits < U32 && 0 <= e < 64 && b == (bits * 64 + e) % U32
    ensures b % 64 == e && b % 16 == e % 16 && b % 4 == e % 4
    ensures b / 16 % 256 == bits % 64 * 4 + e / 16
    ensures b / 4 % 256 == bits % 16 * 16 + e / 4
    ensures b % 256 == bits % 4 * 64 + e
  {
    var low := Wrapped(bits, e);
    LowBits(low, e, b);
    Low6(low, e);
    Low4(low, e);
    Low2(low, e);
  }

  function Shift(pending: int): int { if pending == 4 then 16 else if pending == 2 then 4 else 1 }

  lemma LastOctet(d: seq<Six>, e: Six, k: nat, r: nat)
    requires 0 < r < 4 && |d| == 4 * k + r
    ensures r == 1 ==> Octet(d + [e], k, 0) == First8(d[|d| - 1], e)
    ensures r == 2 ==> Octet(d + [e], k, 1) == Second8(d[|d| - 1], e)
    ensures r == 3 ==> Octet(d + [e], k, 2) == Third8(d[|d| - 1], e)
  {
    hide First8, Second8, Third8;
    assert (d + [e])[4 * k + r] == e && (d + [e])[4 * k + r - 1] == d[|d| - 1];
  }

  /** The byte a digit completes, and the bits it leaves, by what the accumulator held of the digit before. */
  lemma EmittedByte(prev: Six, e: Six, bits: int, b: int)
    requires 0 <= bits < U32 && b == ShiftedIn(bits, e)
    ensures 0 <= b < U32 && b % 64 == e && b % 16 == e % 16 && b % 4 == e % 4
    ensures bits % 64 == prev ==> Emitted(b, 4) == First8(prev, e)
    ensures bits % 16 == prev % 16 ==> Emitted(b, 2) == Second8(prev, e)
    ensures bits % 4 == prev % 4 ==> Emitted(b, 0) == Third8(prev, e)
  {
    ShiftIn(bits, e, b);
  }

  /** One turn of the accumulator: at most one byte comes out, and it is the next byte spelled. */
  lemma Accumulate(d: seq<Six>, e: Six, bits: int, pending: int, b: int)
    requires 0 <= bits < U32 && Accumulated(d, bits, pending) && b == ShiftedIn(bits, e)
    ensures 0 <= b < U32
    ensures pending + 6 >= 8 <==> |d| % 4 != 0
    ensures |d| % 4 == 0 ==> Accumulated(d + [e], b, pending + 6)
    ensures |d| % 4 != 0 ==> Accumulated(d + [e], b, pending - 2)
    ensures |d| % 4 != 0 ==> Emitted(b, pending - 2) == Octet(d + [e], |d| / 4, |d| % 4 - 1)
  {
    hide Octet, Emitted, ShiftedIn, First8, Second8, Third8;
    var k, r := |d| / 4, |d| % 4;
    assert |d| == 4 * k + r;
    assert (|d| + 1) % 4 == if r == 3 then 0 else r + 1;
    EmittedByte(if r == 0 then 0 else d[|d| - 1], e, bits, b);
    if r != 0 { LastOctet(d, e, k, r); }
    assert (d + [e])[|d|] == e;
  }

  /** The tail test on the accumulator is the canonical-tail test on the digits. */
  lemma TailTest(d: seq<Six>, bits: int, pending: int)
    requires |d| % 4 != 1
    ensures Accumulated([], 0, 0)
    ensures Accumulated(d, bits, pending) ==>
              (CanonicalTail(d) <==> !(pending != 0 && Remaining(bits, pending) != 0))
  {
  }

  /** Each digit after the first of a quadruple completes one more byte. */
  lemma OctetsStep(d: seq<Six>, e: Six)
    ensures Octets(d + [e]) == Octets(d) + if |d| % 4 == 0 then [] else [Octet(d + [e], |d| / 4, |d| % 4 - 1)]
  {
    ByteLengthStep(|d|);
    forall j | 0 <= j < ByteLength(|d|) ensures Octets(d + [e])[j] == Octets(d)[j] {
      PrefixReach(|d|, j);
    }
  }

  /** The decoding loop over letters whose bytes are known to fit. */
  method DecodeLoop(body: Bytes, out: array<Byte>, at: nat) returns (ok: bool, pos: nat)
    requires |body| % 4 != 1 && at + ByteLength(|body|) <= out.Length
    modifies out
    ensures ok <==> AllDigits(body) && CanonicalTail(Values(body))
    ensures ok ==> pos == ByteLength(|body|) && out[at..at + pos] == Octets(Values(body))
    ensures forall j :: 0 <= j < at || at + ByteLength(|body|) <= j < out.Length ==> out[j] == old(out[j])
  {
    hide Octets, Octet, Digit, Accumulated, ByteLength, ShiftedIn, Emitted, CanonicalTail, Remaining;
    var bits, pending, i := 0, 0, 0;
    pos := 0;
    TailTest([], 0, 0);
    ByteLengthMonotone(0, |body|);
    assert body[..0] == [];
    while i < |body|
      invariant i <= |body| && AllDigits(body[..i])
      invariant 0 <= bits < U32 && Accumulated(Values(body[..i]), bits, pending)
      invariant pos == ByteLength(i) <= ByteLength(|body|)
      invariant forall j :: at <= j < at + pos ==> out[j] == Octets(Values(body[..i]))[j - at]
      invariant forall j :: 0 <= j < at || at + pos <= j < out.Length ==> out[j] == old(out[j])
    {
      var d := Digit(body[i]);
      if d < 0 { return false, 0; }
      ghost var before, after := Values(body[..i]), Values(body[..i + 1]);
      assert after == before + [d];
      var b := ShiftedIn(bits, d);
      Accumulate(before, d, bits, pending, b);
      OctetsStep(before, d);
      ByteLengthMonotone(i + 1, |body|);
      bits := b;
      pending := pending + 6;
      if pending >= 8 {
        pending := pending - 8;
        out[at + pos] := Emitted(bits, pending);
        pos := pos + 1;
      }
      i := i + 1;
    }
    assert body[..|body|] == body;
    TailTest(Values(body), bits, pending);
    ok := !(pending != 0 && Remaining(bits, pending) != 0);
  }

  /** The verdict on `s` when only `cap` bytes may be written. */
  function DecodeCode(s: Bytes, padded: bool, cap: int): Code
  {
    if !LengthOk(s, padded) then ErrFormat
    else if ByteLength(|Body(s, padded)|) > cap then ErrLimit
    else if !Accepted(s, padded) then ErrFormat else Ok
  }

  lemma CodeOk(s: Bytes, padded: bool, cap: int)
    requires DecodeCode(s, padded, cap) == Ok
    ensures Decode(s, padded).Some? && |Decode(s, padded).value| <= cap
  {
  }

  /** Decodes `input` into out[at..at+cap]; nothing outside that window changes, whatever the outcome. */
  method DecodeTo(input: Bytes, padded: bool, out: array<Byte>, at: nat, cap: nat) returns (rc: Code, written: nat)
    requires at + cap <= out.Length
    modifies out
    ensures rc == DecodeCode(input, padded, cap)
    ensures rc == Ok ==> written == |Decode(input, padded).value| <= cap
                         && out[at..at + written] == Decode(input, padded).value
    ensures rc != Ok ==> written == 0
    ensures forall j :: 0 <= j < at || at + (if rc == Ok then written else cap) <= j < out.Length ==>
        out[j] == old(out[j])
  {
    hide Octets, CanonicalTail, Digit, ByteLength, AllDigits;
    written := 0;
    var n := |input|;
    if padded {
      if n % 4 != 0 { return ErrFormat, 0; }
      if n > 0 && input[n - 1] == PAD { n := n - 1; }
      if n > 0 && input[n - 1] == PAD { n := n - 1; }
    }
    assert Body(input, padded) == input[..n];
    if n % 4 == 1 { return ErrFormat, 0; }
    var count := ByteLength(n);
    if count > cap { return ErrLimit, 0; }
    var ok, pos := DecodeLoop(input[..n], out, at);
    if !ok { return ErrFormat, 0; }
    return Ok, pos;
  }

  lemma ByteLengthStep(i: nat)
    ensures ByteLength(i + 1) == ByteLength(i) + if i % 4 == 0 then 0 else 1
    ensures i % 4 != 0 ==> ByteLength(i) / 3 == i / 4 && ByteLength(i) % 3 == i % 4 - 1
  {
  }

  lemma ByteLengthMonotone(i: nat, n: nat)
    requires i <= n
    ensures ByteLength(i) <= ByteLength(n) && ByteLength(0) == 0
  {
  }

  lemma PrefixReach(i: nat, j: nat)
    requires j < ByteLength(i)
    ensures 4 * (j / 3) + j % 3 + 1 < i
  {
    assert j == 3 * (j / 3) + j % 3;
    assert i == 4 * (i / 4) + i % 4;
  }
}
