/** The alphabet and the bit order of Base64 (section 4 of RFC 4648), letter by letter. */
module Base64Meaning {
  import opened Core
  import Base64

  const UPPER: string := "ABCDEFGHIJKLMNOPQRSTUVWXYZ"
  const LOWER: string := "abcdefghijklmnopqrstuvwxyz"
  const FIGURES: string := "0123456789"

  /** The letter for a digit, from the alphabet in its order. */
  function Sign(d: nat): Byte
    requires d < 64
  {
    (if d < 26 then UPPER[d] else if d < 52 then LOWER[d - 26] else if d < 62 then FIGURES[d - 52]
     else if d == 62 then '+' else '/') as int % 256
  }

  lemma LettersAreSigns(d: Base64.Six)
    ensures Base64.Letter(d) == Sign(d)
  {
    if d < 26 {
      UpperInOrder(d);
    } else if d < 52 {
      LowerInOrder(d - 26);
    }
  }

  lemma UpperInOrder(i: nat)
    requires i < 26
    ensures UPPER[i] as int == 65 + i
  {
    if i < 13 {
      assert UPPER[..13] == "ABCDEFGHIJKLM";
    } else {
      assert UPPER[13..] == "NOPQRSTUVWXYZ";
    }
  }

  lemma LowerInOrder(i: nat)
    requires i < 26
    ensures LOWER[i] as int == 97 + i
  {
    if i < 13 {
      assert LOWER[..13] == "abcdefghijklm";
    } else {
      assert LOWER[13..] == "nopqrstuvwxyz";
    }
  }

  /** A byte is in the alphabet exactly when it is the letter of some digit. */
  lemma DigitsAreSigns(c: Byte)
    ensures Base64.Digit(c) >= 0 <==> exists d :: 0 <= d < 64 && Sign(d) == c
  {
    hide Sign;
    if Base64.Digit(c) >= 0 {
      Base64.LetterOfDigit(c);
      LettersAreSigns(Base64.Digit(c));
    }
    forall d | 0 <= d < 64 && Sign(d) == c ensures Base64.Digit(c) >= 0 { LettersAreSigns(d); }
  }

  /** Three octets are one number of 24 bits, spelled by four letters, the high bits first. */
  lemma TripleIsSpelled(x: Bytes, k: nat, padded: bool)
    requires 3 * k + 2 < |x|
    ensures var n := x[3 * k] as int * 65536 + x[3 * k + 1] as int * 256 + x[3 * k + 2];
            && 4 * k + 4 <= |Base64.Encode(x, padded)| && n < 0x100_0000
            && Base64.Encode(x, padded)[4 * k..4 * k + 4]
                == [Sign(n / 262144), Sign(n / 4096 % 64), Sign(n / 64 % 64), Sign(n % 64)]
  {
    hide Sign, Base64.First6, Base64.Second6, Base64.Third6, Base64.Fourth6, Base64.Encode, Base64.RawLength,
        Base64.TextLength;
    var a, b, c := x[3 * k], x[3 * k + 1], x[3 * k + 2];
    var n := a as int * 65536 + b as int * 256 + c;
    Base64.WordDigits(a, b, c, n);
    assert n / 262144 % 64 == n / 262144;
    Reaches(|x|, k, padded);
    Spelled(x, k, 0, padded);
    Spelled(x, k, 1, padded);
    Spelled(x, k, 2, padded);
    Spelled(x, k, 3, padded);
  }

  lemma Reaches(n: nat, k: nat, padded: bool)
    requires 3 * k < n
    ensures n > 3 * k + 2 ==> 4 * k + 4 <= Base64.RawLength(n) <= Base64.TextLength(n, padded)
    ensures n == 3 * k + 2 ==>
        Base64.RawLength(n) == 4 * k + 3 && Base64.TextLength(n, padded) == if padded then 4 * k + 4 else 4 * k + 3
    ensures n == 3 * k + 1 ==>
        Base64.RawLength(n) == 4 * k + 2 && Base64.TextLength(n, padded) == if padded then 4 * k + 4 else 4 * k + 2
  {
  }

  lemma Spelled(x: Bytes, k: nat, r: nat, padded: bool)
    requires r < 4 && 4 * k + r < Base64.RawLength(|x|)
    ensures 4 * k + r < |Base64.Encode(x, padded)|
        && Base64.Encode(x, padded)[4 * k + r] == Sign(Base64.Sextet(x, k, r))
  {
    hide Sign, Base64.Sextet;
    Base64.EncodeAt(x, padded, k, r);
    LettersAreSigns(Base64.Sextet(x, k, r));
  }

  /**
   * The end of the text: two letters for one last octet, three for two, the unused low bits zero, padded to four if
   * asked.
   */
  lemma LastIsSpelled(x: Bytes, k: nat, padded: bool)
    requires |x| == 3 * k + 1 || |x| == 3 * k + 2
    ensures var t := Base64.Encode(x, padded);
            4 * k <= |t| &&
            if |x| == 3 * k + 1 then
              var n := x[3 * k] as int * 16;
              t[4 * k..] == [Sign(n / 64), Sign(n % 64)] + if padded then [61, 61] else []
            else
              var n := (x[3 * k] as int * 256 + x[3 * k + 1]) * 4;
              t[4 * k..] == [Sign(n / 4096), Sign(n / 64 % 64), Sign(n % 64)] + if padded then [61] else []
  {
    hide Sign, Base64.RawLength, Base64.TextLength, Base64.Sextets, Base64.Letters;
    var t := Base64.Encode(x, padded);
    Reaches(|x|, k, padded);
    Spelled(x, k, 0, padded);
    Spelled(x, k, 1, padded);
    if |x| == 3 * k + 1 {
      OneOctet(x[3 * k]);
    } else {
      Spelled(x, k, 2, padded);
      TwoOctets(x[3 * k], x[3 * k + 1]);
    }
  }

  lemma OneOctet(a: Byte)
    ensures var n := a as int * 16; n / 64 == Base64.First6(a) && n % 64 == Base64.Second6(a, 0)
  {
  }

  lemma TwoOctets(a: Byte, b: Byte)
    ensures var n := (a as int * 256 + b) * 4;
            n / 4096 == Base64.First6(a) && n / 64 % 64 == Base64.Second6(a, b) && n % 64 == Base64.Third6(b, 0)
  {
    Radix3(a / 4, a % 4 * 16 + b / 16, b % 16 * 4, (a as int * 256 + b) * 4);
  }

  lemma Radix3(x2: int, x1: int, x0: int, n: int)
    requires 0 <= x2 < 64 && 0 <= x1 < 64 && 0 <= x0 < 64 && n == x2 * 4096 + x1 * 64 + x0
    ensures n / 4096 == x2 && n / 64 % 64 == x1 && n % 64 == x0
  {
    assert n / 64 == x2 * 64 + x1;
  }
}
