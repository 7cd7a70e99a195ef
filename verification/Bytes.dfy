/**
  Little-endian integers over byte sequences. Every on-disk and in-memory
  format of the store is built from these two functions.

  The system's shifts, masks and disjoint `|` are written here as division,
  remainder and addition of naturals.
*/
module Bytes {

  type byte = x: int | 0 <= x < 256
  type u16 = x: int | 0 <= x < 0x1_0000
  type u32 = x: int | 0 <= x < 0x1_0000_0000
  type u64 = x: int | 0 <= x < 0x1_0000_0000_0000_0000
  type i32 = x: int | -0x8000_0000 <= x < 0x8000_0000

  datatype Option<+T> = None | Some(value: T)

  /** Two's complement. */
  function U32(v: i32): u32 {
    if v < 0 then v + 0x1_0000_0000 else v
  }

  function I32(v: u32): (r: i32)
    ensures U32(r) == v
  {
    if v >= 0x8000_0000 then v - 0x1_0000_0000 else v
  }

  function Pow256(n: nat): (r: nat)
    ensures r >= 1
  {
    if n == 0 then 1 else 256 * Pow256(n - 1)
  }

  /** The n low-order bytes of v, least significant first. */
  function LE(v: nat, n: nat): (s: seq<byte>)
    ensures |s| == n
  {
    if n == 0 then [] else [v % 256] + LE(v / 256, n - 1)
  }

  /** The number whose little-endian bytes are s. */
  function Val(s: seq<byte>): (v: nat)
  {
    if s == [] then 0 else s[0] + 256 * Val(s[1..])
  }

  lemma {:induction false} ValBound(s: seq<byte>)
    ensures Val(s) < Pow256(|s|)
  {
    if s != [] {
      ValBound(s[1..]);
    }
  }

  /** Writing n bytes and reading them back keeps the value modulo 256^n. */
  lemma {:induction false} ValLE(v: nat, n: nat)
    ensures v < Pow256(n) ==> Val(LE(v, n)) == v
  {
    if n != 0 {
      ValLE(v / 256, n - 1);
      assert LE(v, n)[1..] == LE(v / 256, n - 1);
    }
  }

  /** Reading n bytes and writing them back is the identity. */
  lemma {:induction false} LEVal(s: seq<byte>)
    ensures LE(Val(s), |s|) == s
  {
    if s != [] {
      LEVal(s[1..]);
      assert Val(s) / 256 == Val(s[1..]);
    }
  }

  lemma {:induction false} ValConcat(a: seq<byte>, b: seq<byte>)
    ensures Val(a + b) == Val(a) + Pow256(|a|) * Val(b)
  {
    if a == [] {
      assert a + b == b;
    } else {
      ValConcat(a[1..], b);
      assert (a + b)[1..] == a[1..] + b;
      assert Pow256(|a|) * Val(b) == 256 * (Pow256(|a| - 1) * Val(b));
    }
  }

  /** Quotient and remainder are determined by the division equation. */
  lemma DivMod(f: int, q: int, m: int, r: int)
    requires m > 0 && f == q * m + r && 0 <= r < m
    ensures f / m == q && f % m == r
  {
    var d := q - f / m;
    assert d * m == f % m - r;
    assert d > 0 ==> d * m >= m;
    assert d < 0 ==> d * m <= -m;
  }

  /** Adding to a number that has already been reduced. */
  lemma WrapSum(a: int, x: int, m: int)
    requires m > 0
    ensures (a % m + x) % m == (a + x) % m
  {
    var q := a / m;
    var y := a % m + x;
    assert a + x == q * m + y;
    assert (q + y / m) * m == q * m + y / m * m;
    DivMod(a + x, q + y / m, m, y % m);
  }

  /** Overwriting at d keeps everything before d. */
  lemma Splice(b: seq<byte>, d: nat, code: seq<byte>, b': seq<byte>, lo: nat, hi: nat)
    requires lo <= hi <= d && d + |code| <= |b|
    requires b' == b[..d] + code + b[d + |code|..]
    ensures |b'| == |b| && b'[lo..hi] == b[lo..hi]
    ensures b'[lo..d + |code|] == b[lo..d] + code
  {
  }

  lemma SubSlice(a: seq<byte>, p: nat, n: nat, i: nat, j: nat)
    requires p + n <= |a| && i <= j <= n
    ensures a[p + i..p + j] == a[p..p + n][i..j]
  {
    var x, y := a[p + i..p + j], a[p..p + n][i..j];
    assert |x| == |y| && forall k :: 0 <= k < |x| ==> x[k] == y[k];
  }

  lemma Behind(a: seq<byte>, b: seq<byte>, c: seq<byte>)
    requires a + b <= c
    ensures c[|a|..|a| + |b|] == b
  {
  }

  lemma ConcatAssoc<T>(a: seq<T>, b: seq<T>, c: seq<T>)
    ensures (a + b) + c == a + (b + c)
  {
  }

  lemma Pow256Values()
    ensures Pow256(1) == 0x100 && Pow256(2) == 0x1_0000 && Pow256(3) == 0x100_0000
    ensures Pow256(4) == 0x1_0000_0000 && Pow256(8) == 0x1_0000_0000_0000_0000
  {
    assert Pow256(5) == 0x100_0000_0000;
    assert Pow256(6) == 0x1_0000_0000_0000;
    assert Pow256(7) == 0x100_0000_0000_0000;
  }
}
