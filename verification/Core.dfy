/** Vocabulary shared by every codec: result codes, octets and fixed-width integers. */
module Core {

  /** The `cf_result` codes. */
  datatype Code = Ok | ErrArgument | ErrFormat | ErrLimit | ErrUnsupported | ErrState | ErrMemory | ErrTruncated

  datatype Option<+T> = None | Some(value: T)

  type Byte = x: int | 0 <= x < 256
  type Bytes = seq<Byte>

  const U16: int := 0x1_0000
  const U32: int := 0x1_0000_0000
  const U64: int := 0x1_0000_0000_0000_0000

  /** `size_t` of the 32-bit target. */
  const SIZE_MAX: int := 0xFFFF_FFFF

  function Min(a: int, b: int): int { if a < b then a else b }

  function Max(a: int, b: int): int { if a < b then b else a }

  /** 256 to the power n. */
  function Pow256(n: nat): (p: nat)
    ensures p > 0
  {
    if n == 0 then 1 else 256 * Pow256(n - 1)
  }

  /** The little-endian value of a byte string. */
  function Le(s: Bytes): (v: nat)
  {
    if s == [] then 0 else s[0] + 256 * Le(s[1..])
  }

  /** The n low-order bytes of v, least significant first. */
  function ToLe(n: nat, v: nat): (s: Bytes)
    ensures |s| == n
  {
    if n == 0 then [] else [v % 256] + ToLe(n - 1, v / 256)
  }

  lemma {:induction false} LeBound(s: Bytes)
    ensures Le(s) < Pow256(|s|)
  {
    if s != [] { LeBound(s[1..]); }
  }

  /** Writing v in n bytes and reading it back gives v modulo 256^n. */
  lemma {:induction false} LeToLe(n: nat, v: nat)
    requires v < Pow256(n)
    ensures Le(ToLe(n, v)) == v
  {
    if n > 0 { LeToLe(n - 1, v / 256); }
  }

  lemma Pow256Values()
    ensures Pow256(0) == 1 && Pow256(1) == 256 && Pow256(2) == U16 && Pow256(4) == U32 && Pow256(8) == U64
  {
    assert Pow256(3) == 256 * Pow256(2);
    assert Pow256(5) == 256 * Pow256(4);
    assert Pow256(7) == 256 * (256 * Pow256(5));
  }

  lemma Adjacent<T>(s: seq<T>, a: nat, b: nat, c: nat)
    requires a <= b <= c <= |s|
    ensures s[a..b] + s[b..c] == s[a..c]
  {
  }

  lemma SliceOfSlice<T>(s: seq<T>, a: nat, b: nat, lo: nat, hi: nat)
    requires a <= b <= |s| && lo <= hi <= b - a
    ensures s[a..b][lo..hi] == s[a + lo..a + hi]
  {
    var t, r := s[a..b], s[a + lo..a + hi];
    forall i | 0 <= i < hi - lo ensures t[lo..hi][i] == r[i] {
      assert t[lo..hi][i] == t[lo + i] == s[a + lo + i];
    }
    assert t[lo..hi] == r;
  }

  lemma ArraySlice<T>(a: array<T>, lo: nat, hi: nat)
    requires lo <= hi <= a.Length
    ensures a[..][lo..hi] == a[lo..hi]
  {
  }

  /** A text, octet by octet. */
  function Octets(s: string): (b: Bytes)
    ensures |b| == |s| && forall i :: 0 <= i < |s| ==> b[i] == s[i] as int % 256
  {
    if s == [] then [] else Octets(s[..|s| - 1]) + [s[|s| - 1] as int % 256]
  }
}
