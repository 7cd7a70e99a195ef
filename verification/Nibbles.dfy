/**
  Key hashes as paths of sixteen hexadecimal digits, and the tree parameters
  derived from the configuration.
*/
module Nibbles {
  import opened Bytes

  function Pow16(n: nat): (r: nat)
    ensures r >= 1
  {
    if n == 0 then 1 else 16 * Pow16(n - 1)
  }

  lemma {:induction false} Pow16Sum(m: nat, n: nat)
    ensures Pow16(m + n) == Pow16(m) * Pow16(n)
  {
    if m != 0 {
      Pow16Sum(m - 1, n);
      assert Pow16(m) * Pow16(n) == 16 * (Pow16(m - 1) * Pow16(n));
    }
  }

  lemma {:induction false} Pow256Is(n: nat)
    ensures Pow256(n) == Pow16(2 * n)
  {
    if n != 0 {
      Pow256Is(n - 1);
      assert Pow16(2 * n) == 16 * (16 * Pow16(2 * n - 2));
    }
  }

  lemma HashRange()
    ensures Pow16(16) == 0x1_0000_0000_0000_0000
  {
    assert Pow16(8) == 0x1_0000_0000;
    Pow16Sum(8, 8);
  }

  /** h shifted right until only its first n digits are left. */
  function Top(h: nat, n: nat): nat
    requires n <= 16
    decreases 16 - n
  {
    if n == 16 then h else Top(h, n + 1) / 16
  }

  function Nibble(h: nat, i: nat): (d: nat)
    requires i < 16
    ensures d < 16
  {
    Top(h, i + 1) % 16
  }

  lemma TopStep(h: nat, n: nat)
    requires n < 16
    ensures Top(h, n + 1) == 16 * Top(h, n) + Nibble(h, n)
  {
  }

  lemma Regroup(a: int, d: int, w: int)
    ensures (16 * a + d) * w == a * (16 * w) + d * w
  {
  }

  lemma Carry(h: nat, a: nat, d: nat, w: nat, r: nat) returns (rest: nat)
    requires h == (16 * a + d) * w + r && d < 16 && r < w
    ensures rest < 16 * w && h == a * (16 * w) + rest
  {
    Regroup(a, d, w);
    rest := d * w + r;
    assert d * w <= 15 * w;
  }

  /** Splitting a hash into its first n digits and the rest. */
  lemma {:induction false} TopSplit(h: nat, n: nat) returns (rest: nat)
    requires n <= 16
    ensures rest < Pow16(16 - n) && h == Top(h, n) * Pow16(16 - n) + rest
    decreases 16 - n
  {
    if n == 16 {
      rest := 0;
    } else {
      var r := TopSplit(h, n + 1);
      TopStep(h, n);
      hide Top, Nibble;
      rest := Carry(h, Top(h, n), Nibble(h, n), Pow16(15 - n), r);
    }
  }

  lemma TopEnds(h: u64)
    ensures Top(h, 0) == 0 && Top(h, 16) == h
  {
    HashRange();
    var rest := TopSplit(h, 0);
    hide Top;
    DivMod(h, Top(h, 0), Pow16(16), rest);
    DivMod(h, 0, Pow16(16), h);
  }

  ghost predicate IsPath(p: seq<nat>) {
    |p| <= 16 && forall i :: 0 <= i < |p| ==> p[i] < 16
  }

  /** The number a digit sequence spells. */
  function PathVal(p: seq<nat>): nat {
    if p == [] then 0 else 16 * PathVal(p[..|p| - 1]) + p[|p| - 1]
  }

  /** h starts with the digits of p. */
  ghost predicate HasPrefix(h: nat, p: seq<nat>) {
    |p| <= 16 && forall i :: 0 <= i < |p| ==> p[i] == Nibble(h, i)
  }

  lemma {:induction false} PathValBound(p: seq<nat>)
    requires IsPath(p)
    ensures PathVal(p) < Pow16(|p|)
  {
    if p != [] {
      PathValBound(p[..|p| - 1]);
    }
  }

  /** Having a prefix is having its number on top. */
  lemma {:induction false} PrefixIsTop(h: u64, p: seq<nat>)
    requires IsPath(p)
    ensures HasPrefix(h, p) <==> Top(h, |p|) == PathVal(p)
  {
    hide Top;
    if p == [] {
      TopEnds(h);
    } else {
      var m := |p| - 1;
      PrefixIsTop(h, p[..m]);
      TopStep(h, m);
      assert HasPrefix(h, p) <==> HasPrefix(h, p[..m]) && p[m] == Nibble(h, m) by {
        assert forall i :: 0 <= i < m ==> p[..m][i] == p[i];
      }
    }
  }

  // ----- key.go

  method ParsePathUint64(khash: u64) returns (path: seq<nat>)
    ensures |path| == 16 && IsPath(path) && HasPrefix(khash, path)
  {
    path := [];
    for i := 0 to 16
      invariant |path| == i && IsPath(path) && HasPrefix(khash, path)
    {
      path := path + [Top(khash, i + 1) % 16];
    }
  }

  /** setKeyHashByPath: the digits at the top, zeros below. */
  method SetKeyHashByPath(v: seq<nat>) returns (keyHash: nat)
    requires IsPath(v)
    ensures keyHash == PathVal(v) * Pow16(16 - |v|)
  {
    hide Pow16, PathVal;
    keyHash := 0;
    assert v[..0] == [];
    NoPath();
    for i := 0 to |v|
      invariant keyHash == PathVal(v[..i]) * Pow16(16 - i)
    {
      PathShift(v, i);
      keyHash := keyHash + v[i] * Pow16(15 - i);
    }
    assert v[..|v|] == v;
  }

  lemma NoPath()
    ensures PathVal([]) == 0
  {
  }

  lemma PathShift(v: seq<nat>, i: nat)
    requires i < |v| && i < 16
    ensures PathVal(v[..i + 1]) * Pow16(15 - i) == PathVal(v[..i]) * Pow16(16 - i) + v[i] * Pow16(15 - i)
  {
    assert v[..i + 1][..i] == v[..i];
    Regroup(PathVal(v[..i]), v[i], Pow16(15 - i));
  }

  /** The bucket of a key: its first `depth` digits. */
  method BucketOf(path: seq<nat>, depth: nat) returns (id: nat)
    requires IsPath(path) && depth <= |path|
    ensures id == PathVal(path[..depth])
  {
    id := 0;
    for i := 0 to depth
      invariant id == PathVal(path[..i])
    {
      assert path[..i + 1][..i] == path[..i];
      id := id * 16 + path[i];
    }
  }

  // ----- config.go

  const KHASH_LENS := [8, 8, 7, 7, 6, 6, 5, 5]
  const MAX_DEPTH := 8

  /** depth digits route to a bucket, height - 1 more to a leaf. */
  datatype Shape = Shape(depth: nat, height: nat) {
    ghost predicate Legal() {
      2 <= height && depth + height <= MAX_DEPTH
    }

    /** Digits that a leaf's place in the tree determines. */
    function Fixed(): nat
      requires height >= 1
    {
      depth + height - 1
    }

    /** Bytes of a key hash that a leaf stores: as few as cover, with its place, the hash. */
    function KHashLen(): (n: nat)
      requires Legal()
      ensures 5 <= n <= 8 && Fixed() + 2 * n >= 16 > Fixed() + 2 * (n - 1)
    {
      KHASH_LENS[Fixed()]
    }
  }

  /** InitTree: depth from the number of buckets, then the stored hash length and
      its mask. The stored bytes and the leaf's place cover all of a hash. */
  method InitTree(numBucket: nat, treeHeight: nat, ghost d: nat) returns (sh: Shape, len: nat, mask: nat)
    requires numBucket == Pow16(d) && Shape(d, treeHeight).Legal()
    ensures sh == Shape(d, treeHeight)
    ensures len == sh.KHashLen() && mask == Pow256(len) - 1
  {
    var n, depth := numBucket, 0;
    while n > 1
      invariant depth <= d && n == Pow16(d - depth)
    {
      depth := depth + 1;
      n := n / 16;
    }
    sh := Shape(depth, treeHeight);
    len := KHASH_LENS[depth + treeHeight - 1];
    mask := Pow256(len) - 1;
  }
}
