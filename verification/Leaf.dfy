/**
  Tree leaves: packed cells of a truncated key hash and an eleven-byte item, in
  one run of raw bytes. A leaf behaves as a map keyed by full 64-bit hashes,
  because its place in the tree supplies the digits the cells leave out.
*/
module Leaf {
  import opened Bytes
  import opened Nibbles

  const ITEM_SIZE := 11
  const LEN_USE_C_FIND := 100

  datatype Item = Item(ver: i32, vhash: u16, chunk: u16, offset: u32)

  /** Data positions are multiples of 256, so their low byte is not stored. */
  predicate Aligned(it: Item) {
    it.offset % 256 == 0
  }

  datatype Cell = Cell(hash: u64, item: Item)

  // ----- items

  function ItemToBytes(it: Item): (b: seq<byte>)
    ensures |b| == ITEM_SIZE
  {
    LE(U32(it.ver), 4) + LE(it.vhash, 2) + LE(it.offset / 256, 3) + LE(it.chunk, 2)
  }

  function BytesToItem(b: seq<byte>): Item
    requires |b| >= ITEM_SIZE
  {
    ValBound(b[0..4]);
    ValBound(b[4..6]);
    ValBound(b[6..9]);
    ValBound(b[9..11]);
    Pow256Values();
    Item(I32(Val(b[0..4])), Val(b[4..6]), Val(b[9..11]), Val(b[6..9]) * 256)
  }

  /** An aligned position survives the 24-bit offset. */
  lemma ItemRoundTrip(it: Item, b: seq<byte>)
    requires Aligned(it) && |b| >= ITEM_SIZE && b[..ITEM_SIZE] == ItemToBytes(it)
    ensures BytesToItem(b) == it
  {
    hide LE, Val;
    var a := ItemToBytes(it);
    Pow256Values();
    ValLE(U32(it.ver), 4);
    ValLE(it.vhash, 2);
    ValLE(it.offset / 256, 3);
    ValLE(it.chunk, 2);
    assert a[0..4] == LE(U32(it.ver), 4) && a[4..6] == LE(it.vhash, 2);
    assert a[6..9] == LE(it.offset / 256, 3) && a[9..11] == LE(it.chunk, 2);
    var x := b[..ITEM_SIZE];
    assert b[0..4] == x[0..4] && b[4..6] == x[4..6] && b[6..9] == x[6..9] && b[9..11] == x[9..11];
  }

  // ----- cells

  function CellBytes(lk: nat, c: Cell): (b: seq<byte>)
    ensures |b| == lk + ITEM_SIZE
  {
    LE(c.hash, lk) + ItemToBytes(c.item)
  }

  function Pack(lk: nat, cells: seq<Cell>): seq<byte> {
    if cells == [] then [] else CellBytes(lk, cells[0]) + Pack(lk, cells[1..])
  }

  lemma {:induction false} PackConcat(lk: nat, a: seq<Cell>, b: seq<Cell>)
    ensures Pack(lk, a + b) == Pack(lk, a) + Pack(lk, b)
  {
    hide CellBytes;
    if a == [] {
      assert a + b == b;
      assert Pack(lk, a) == [];
    } else {
      PackConcat(lk, a[1..], b);
      assert (a + b)[0] == a[0] && (a + b)[1..] == a[1..] + b;
      ConcatAssoc(CellBytes(lk, a[0]), Pack(lk, a[1..]), Pack(lk, b));
    }
  }

  /** The bytes before, of, and after cell j. */
  lemma PackAt(lk: nat, cells: seq<Cell>, j: nat)
    requires j < |cells|
    ensures Pack(lk, cells) == Pack(lk, cells[..j]) + CellBytes(lk, cells[j]) + Pack(lk, cells[j + 1..])
    ensures Pack(lk, cells[..j + 1]) == Pack(lk, cells[..j]) + CellBytes(lk, cells[j])
  {
    hide CellBytes;
    var c := [cells[j]];
    assert Pack(lk, c) == CellBytes(lk, cells[j]) by {
      assert c[1..] == [];
      assert Pack(lk, []) == [];
      assert Pack(lk, c) == CellBytes(lk, c[0]) + Pack(lk, c[1..]);
    }
    PackConcat(lk, cells[..j], c);
    PackConcat(lk, cells[..j] + c, cells[j + 1..]);
    assert cells[..j] + c == cells[..j + 1] && cells == cells[..j] + c + cells[j + 1..];
  }

  lemma {:induction false} PackSize(lk: nat, cells: seq<Cell>)
    ensures |Pack(lk, cells)| == |cells| * (lk + ITEM_SIZE)
  {
    if cells != [] {
      PackSize(lk, cells[1..]);
    }
  }

  /** The index of the first cell whose stored hash bytes are those of h. */
  function Match(lk: nat, cells: seq<Cell>, h: u64): (j: nat)
    ensures j <= |cells|
    ensures forall i :: 0 <= i < j ==> LE(cells[i].hash, lk) != LE(h, lk)
    ensures j < |cells| ==> LE(cells[j].hash, lk) == LE(h, lk)
  {
    if cells == [] then 0
    else if LE(cells[0].hash, lk) == LE(h, lk) then 0
    else
      var j := Match(lk, cells[1..], h);
      assert forall i :: 1 <= i < j + 1 ==> cells[i] == cells[1..][i - 1];
      j + 1
  }

  lemma CellAt(lk: nat, cells: seq<Cell>, j: nat)
    requires j < |cells|
    ensures var i := |Pack(lk, cells[..j])|; var leaf := Pack(lk, cells); var size := lk + ITEM_SIZE;
            && i + size <= |leaf| && i + size == |Pack(lk, cells[..j + 1])|
            && leaf[i..i + lk] == LE(cells[j].hash, lk)
            && leaf[i + lk..i + size] == ItemToBytes(cells[j].item)
            && leaf[i..i + size] == CellBytes(lk, cells[j])
  {
    PackAt(lk, cells, j);
    hide Pack, LE, ItemToBytes;
    var i, leaf := |Pack(lk, cells[..j])|, Pack(lk, cells);
    assert leaf[i..i + lk + ITEM_SIZE] == CellBytes(lk, cells[j]);
    assert leaf[i..i + lk] == CellBytes(lk, cells[j])[..lk];
    assert leaf[i + lk..i + lk + ITEM_SIZE] == CellBytes(lk, cells[j])[lk..];
  }

  /** Byte search: a Go loop for short leaves, a C loop for long ones, which
      multiplies its result (or -1) by the cell size. */
  method FindInBytes(leaf: seq<byte>, lk: nat, keyhash: u64, ghost cells: seq<Cell>) returns (idx: int)
    requires leaf == Pack(lk, cells)
    ensures var j := Match(lk, cells, keyhash);
            if j < |cells| then idx == |Pack(lk, cells[..j])| else idx < 0
  {
    hide Pack, LE;
    var lenItem := lk + ITEM_SIZE;
    var size := |leaf|;
    var kb := LE(keyhash, lk);
    PackSize(lk, cells);
    var n := |leaf| / lenItem;
    ghost var j: nat := 0;
    Start(lk, cells);
    if n < LEN_USE_C_FIND {
      var i := 0;
      while i < size
        invariant j <= |cells| && i == |Pack(lk, cells[..j])| && j <= Match(lk, cells, keyhash)
        decreases |cells| - j
      {
        Inside(lk, cells, j);
        CellAt(lk, cells, j);
        if leaf[i..i + lk] == kb {
          return i;
        }
        i := i + lenItem;
        j := j + 1;
      }
      Inside(lk, cells, j);
      return -1;
    } else {
      CellCount(|cells|, lenItem);
      var p, k := 0, 0;
      while k < n
        invariant 0 <= k <= n && j == k && p == |Pack(lk, cells[..j])| && j <= Match(lk, cells, keyhash)
      {
        CellAt(lk, cells, j);
        if leaf[p..p + lk] == kb {
          PackSize(lk, cells[..j]);
          return k * lenItem;
        }
        k, p := k + 1, p + lenItem;
        j := j + 1;
      }
      return -1 * lenItem;
    }
  }

  lemma CellCount(n: nat, size: nat)
    requires size > 0
    ensures n * size / size == n
  {
    DivMod(n * size, n, size, 0);
  }

  lemma Start(lk: nat, cells: seq<Cell>)
    ensures |Pack(lk, cells[..0])| == 0 && cells[..0] == []
  {
  }

  lemma Inside(lk: nat, cells: seq<Cell>, j: nat)
    requires j <= |cells|
    ensures |Pack(lk, cells[..j])| < |Pack(lk, cells)| <==> j < |cells|
  {
    if j < |cells| {
      PackAt(lk, cells, j);
    } else {
      assert cells[..j] == cells;
    }
  }

  // ----- set, get, remove

  function Put(b: seq<byte>, at: nat, x: seq<byte>): (r: seq<byte>)
    requires at + |x| <= |b|
    ensures |r| == |b|
  {
    b[..at] + x + b[at + |x|..]
  }

  lemma {:induction false} LEPrefix(v: nat, m: nat, n: nat)
    requires m <= n
    ensures LE(v, n)[..m] == LE(v, m)
  {
    if m > 0 {
      LEPrefix(v / 256, m - 1, n - 1);
      assert LE(v, n)[..m] == [v % 256] + LE(v / 256, n - 1)[..m - 1];
    }
  }

  /** The hash is always written as eight bytes; what spills over the stored
      length is repaired by the item written after it. */
  lemma WriteCell(b: seq<byte>, at: nat, lk: nat, c: Cell)
    requires lk <= 8 && at + lk + ITEM_SIZE <= |b|
    ensures Put(Put(b, at, LE(c.hash, 8)), at + lk, ItemToBytes(c.item)) ==
            b[..at] + CellBytes(lk, c) + b[at + lk + ITEM_SIZE..]
  {
    hide LE, ItemToBytes;
    LEPrefix(c.hash, lk, 8);
    Overwrite(b, at, LE(c.hash, 8), lk, ItemToBytes(c.item));
  }

  lemma Overwrite(b: seq<byte>, at: nat, x: seq<byte>, n: nat, y: seq<byte>)
    requires n <= |x| <= n + |y| && at + n + |y| <= |b|
    ensures Put(Put(b, at, x), at + n, y) == b[..at] + (x[..n] + y) + b[at + n + |y|..]
  {
    var b1 := Put(b, at, x);
    assert b1[..at + n] == b[..at] + x[..n];
    assert b1[at + n + |y|..] == b[at + n + |y|..];
  }

  function SetCells(lk: nat, cells: seq<Cell>, c: Cell): seq<Cell> {
    var j := Match(lk, cells, c.hash);
    if j < |cells| then cells[j := c] else cells + [c]
  }

  lemma PackSet(lk: nat, cells: seq<Cell>, j: nat, c: Cell)
    requires j < |cells|
    ensures Pack(lk, cells[j := c]) == Pack(lk, cells[..j]) + CellBytes(lk, c) + Pack(lk, cells[j + 1..])
  {
    hide Pack, CellBytes;
    var cells' := cells[j := c];
    PackAt(lk, cells', j);
    assert cells'[..j] == cells[..j] && cells'[j + 1..] == cells[j + 1..];
  }

  lemma PackSnoc(lk: nat, cells: seq<Cell>, c: Cell)
    ensures Pack(lk, cells + [c]) == Pack(lk, cells) + CellBytes(lk, c)
  {
    hide Pack, CellBytes;
    var cells' := cells + [c];
    PackAt(lk, cells', |cells|);
    assert cells'[..|cells|] == cells && cells'[..|cells| + 1] == cells';
  }

  ghost predicate AllAligned(cells: seq<Cell>) {
    forall i :: 0 <= i < |cells| ==> Aligned(cells[i].item)
  }

  /** SliceHeader.Set. `junk` is the memory a grown leaf gets at its end. */
  method Set(leaf: seq<byte>, lk: nat, c: Cell, junk: seq<byte>, ghost cells: seq<Cell>)
    returns (leaf': seq<byte>, oldm: Item, exist: bool)
    requires lk <= 8 && leaf == Pack(lk, cells) && AllAligned(cells) && |junk| == lk + ITEM_SIZE
    ensures leaf' == Pack(lk, SetCells(lk, cells, c))
    ensures var j := Match(lk, cells, c.hash); exist == (j < |cells|) && (exist ==> oldm == cells[j].item)
  {
    hide Pack, LE, ItemToBytes, CellBytes;
    var idx := FindInBytes(leaf, lk, c.hash, cells);
    ghost var j := Match(lk, cells, c.hash);
    exist := idx >= 0;
    oldm := Item(0, 0, 0, 0);
    if exist {
      CellAt(lk, cells, j);
      assert leaf[idx + lk..][..ITEM_SIZE] == leaf[idx + lk..idx + lk + ITEM_SIZE];
      ItemRoundTrip(cells[j].item, leaf[idx + lk..]);
      oldm := BytesToItem(leaf[idx + lk..]);
      WriteCell(leaf, idx, lk, c);
      leaf' := Put(Put(leaf, idx, LE(c.hash, 8)), idx + lk, ItemToBytes(c.item));
      PackAt(lk, cells, j);
      PackSet(lk, cells, j, c);
      Cut(Pack(lk, cells[..j]), CellBytes(lk, cells[j]), Pack(lk, cells[j + 1..]));
    } else {
      var grown := leaf + junk;
      WriteCell(grown, |leaf|, lk, c);
      leaf' := Put(Put(grown, |leaf|, LE(c.hash, 8)), |leaf| + lk, ItemToBytes(c.item));
      PackSnoc(lk, cells, c);
      assert grown[..|leaf|] == leaf && grown[|leaf| + lk + ITEM_SIZE..] == [];
      assert leaf + CellBytes(lk, c) + [] == leaf + CellBytes(lk, c);
    }
  }

  lemma Cut(x: seq<byte>, y: seq<byte>, z: seq<byte>)
    ensures (x + y + z)[..|x|] == x && (x + y + z)[|x| + |y|..] == z
  {
  }

  /** SliceHeader.Get */
  method Get(leaf: seq<byte>, lk: nat, h: u64, ghost cells: seq<Cell>) returns (item: Item, exist: bool)
    requires leaf == Pack(lk, cells) && AllAligned(cells)
    ensures var j := Match(lk, cells, h); exist == (j < |cells|) && (exist ==> item == cells[j].item)
  {
    hide Pack, LE, ItemToBytes;
    var idx := FindInBytes(leaf, lk, h, cells);
    exist := idx >= 0;
    item := Item(0, 0, 0, 0);
    if exist {
      ghost var j := Match(lk, cells, h);
      CellAt(lk, cells, j);
      assert leaf[idx + lk..][..ITEM_SIZE] == leaf[idx + lk..idx + lk + ITEM_SIZE];
      ItemRoundTrip(cells[j].item, leaf[idx + lk..]);
      item := BytesToItem(leaf[idx + lk..]);
    }
  }

  /** Whether a removal request applies: unconditionally, or at this offset. */
  predicate Applies(oldm: Item, anyPos: bool, offset: u32) {
    anyPos || oldm.offset == offset
  }

  function RemoveCells(lk: nat, cells: seq<Cell>, h: u64, anyPos: bool, offset: u32): seq<Cell> {
    var j := Match(lk, cells, h);
    if j < |cells| && Applies(cells[j].item, anyPos, offset) then cells[..j] + cells[j + 1..] else cells
  }

  /** SliceHeader.Remove; `anyPos` stands for a request with chunk -1. */
  method Remove(leaf: seq<byte>, lk: nat, h: u64, anyPos: bool, offset: u32, ghost cells: seq<Cell>)
    returns (leaf': seq<byte>, oldm: Item, removed: bool)
    requires leaf == Pack(lk, cells) && AllAligned(cells)
    ensures leaf' == Pack(lk, RemoveCells(lk, cells, h, anyPos, offset))
    ensures var j := Match(lk, cells, h);
            removed == (j < |cells| && Applies(cells[j].item, anyPos, offset)) && (removed ==> oldm == cells[j].item)
  {
    hide Pack, LE, ItemToBytes, CellBytes;
    var idx := FindInBytes(leaf, lk, h, cells);
    leaf', oldm, removed := leaf, Item(0, 0, 0, 0), false;
    if idx >= 0 {
      ghost var j := Match(lk, cells, h);
      CellAt(lk, cells, j);
      assert leaf[idx + lk..][..ITEM_SIZE] == leaf[idx + lk..idx + lk + ITEM_SIZE];
      ItemRoundTrip(cells[j].item, leaf[idx + lk..]);
      oldm := BytesToItem(leaf[idx + lk..]);
      if anyPos || oldm.offset == offset {
        removed := true;
        leaf' := leaf[..idx] + leaf[idx + lk + ITEM_SIZE..];
        PackAt(lk, cells, j);
        Cut(Pack(lk, cells[..j]), CellBytes(lk, cells[j]), Pack(lk, cells[j + 1..]));
        PackConcat(lk, cells[..j], cells[j + 1..]);
      }
    }
  }

  // ----- full hashes from stored bytes and place

  lemma {:induction false} LESplit(v: nat, n: nat) returns (q: nat)
    ensures v == Val(LE(v, n)) + Pow256(n) * q && Val(LE(v, n)) < Pow256(n)
  {
    ValBound(LE(v, n));
    if n == 0 {
      q := v;
    } else {
      q := LESplit(v / 256, n - 1);
      assert LE(v, n)[1..] == LE(v / 256, n - 1);
      assert Pow256(n) * q == 256 * (Pow256(n - 1) * q);
    }
  }

  lemma SmallMultiple(d: int, p: int, k: int)
    requires p > 0 && d == p * k && -p < d < p
    ensures k == 0
  {
    assert k >= 1 ==> p * k >= p;
    assert k <= -1 ==> p * k <= -p;
  }

  /** 256^len is a multiple of what lies below the fixed digits. */
  lemma Widths(sh: Shape) returns (r: nat)
    requires sh.Legal()
    ensures Pow256(sh.KHashLen()) == Pow16(16 - sh.Fixed()) * r && r >= 1
  {
    var lk, f := sh.KHashLen(), sh.Fixed();
    Pow256Is(lk);
    Pow16Sum(16 - f, 2 * lk - (16 - f));
    r := Pow16(2 * lk - (16 - f));
  }

  lemma SameSplit(h: int, h': int, low: int, q: int, q': int, p: int, t: int, w: int, rest: int, rest': int, r: int)
    requires h == low + p * q && h' == low + p * q' && h == t * w + rest && h' == t * w + rest'
    requires 0 <= rest < w && 0 <= rest' < w && p == w * r && r >= 1
    ensures h == h'
  {
    assert w * r >= w;
    assert p * (q - q') == p * q - p * q';
    SmallMultiple(h - h', p, q - q');
  }

  /** Two hashes of the same leaf with the same stored bytes are equal. */
  lemma LowIdentifies(sh: Shape, h: u64, h': u64)
    requires sh.Legal() && Top(h, sh.Fixed()) == Top(h', sh.Fixed())
    requires LE(h, sh.KHashLen()) == LE(h', sh.KHashLen())
    ensures h == h'
  {
    hide Top, LE, Pow256, Pow16, Val;
    var lk, f := sh.KHashLen(), sh.Fixed();
    var q := LESplit(h, lk);
    var q' := LESplit(h', lk);
    var rest := TopSplit(h, f);
    var rest' := TopSplit(h', f);
    var r := Widths(sh);
    SameSplit(h, h', Val(LE(h, lk)), q, q', Pow256(lk), Top(h, f), Pow16(16 - f), rest, rest', r);
  }

  /** getNodeKhash, shifted to the top half of a hash. */
  method NodeKhash(path: seq<nat>) returns (khash: nat)
    requires IsPath(path) && |path| <= 8
    ensures khash == PathVal(path) * Pow16(8 - |path|)
  {
    hide Pow16, PathVal;
    khash := 0;
    assert path[..0] == [];
    NoPath();
    for i := 0 to |path|
      invariant khash == PathVal(path[..i]) * Pow16(8 - i)
    {
      khash := khash + path[i] % 16 * Pow16(7 - i);
      NodeShift(path, i);
    }
    assert path[..|path|] == path;
  }

  lemma NodeShift(v: seq<nat>, i: nat)
    requires i < |v| && i < 8
    ensures PathVal(v[..i + 1]) * Pow16(7 - i) == PathVal(v[..i]) * Pow16(8 - i) + v[i] * Pow16(7 - i)
  {
    assert v[..i + 1][..i] == v[..i];
    Regroup(PathVal(v[..i]), v[i], Pow16(7 - i));
  }

  lemma HighPart(h: int, low: int, q: int, p: int, t: int, w: int, rest: int, r: int)
    requires h == low + p * q && 0 <= low < p && h == t * w + rest && 0 <= rest < w && p == w * r
    ensures low + (t * w - t * w % p) == h
  {
    var d := low - rest;
    assert w * (t - r * q) == w * t - w * (r * q);
    assert w * (r * q) == w * r * q;
    NonNegative(w, t - r * q, d);
    DivMod(t * w, q, p, d);
  }

  /** The stored bytes of a hash and the digits of its leaf give back the hash. */
  lemma Rebuild(sh: Shape, h: u64, x: nat)
    requires sh.Legal() && x == Top(h, sh.Fixed()) * Pow16(16 - sh.Fixed())
    ensures var p := Pow256(sh.KHashLen()); Val(LE(h, sh.KHashLen())) + (x - x % p) == h
  {
    hide Top, LE, Pow256, Pow16, Val;
    var lk, f := sh.KHashLen(), sh.Fixed();
    var q := LESplit(h, lk);
    var rest := TopSplit(h, f);
    var r := Widths(sh);
    HighPart(h, Val(LE(h, lk)), q, Pow256(lk), Top(h, f), Pow16(16 - f), rest, r);
  }

  lemma NonNegative(w: int, k: int, d: int)
    requires w > 0 && d == w * k && d > -w
    ensures d >= 0
  {
    assert k <= -1 ==> w * k <= -w;
  }

  /** SliceHeader.Iter: visits every cell in order with its full hash. */
  method Iter(leaf: seq<byte>, sh: Shape, path: seq<nat>, ghost cells: seq<Cell>) returns (out: seq<Cell>)
    requires sh.Legal() && leaf == Pack(sh.KHashLen(), cells) && AllAligned(cells)
    requires IsPath(path) && |path| == sh.Fixed()
    requires forall i :: 0 <= i < |cells| ==> HasPrefix(cells[i].hash, path)
    ensures out == cells
  {
    hide Pack, LE, ItemToBytes, HasPrefix, Val, Pow256, Pow16, BytesToItem, PathVal, Top;
    var lk := sh.KHashLen();
    var lenItem := lk + ITEM_SIZE;
    var mask := Pow256(lk);
    var nodeKhash := NodeKhash(path);
    var x := nodeKhash * 0x1_0000_0000;
    NodeAbove(path, x);
    var above := x - x % mask;
    out := [];
    var i := 0;
    ghost var j := 0;
    Start(lk, cells);
    while i < |leaf|
      invariant 0 <= j <= |cells| && i == |Pack(lk, cells[..j])| && out == cells[..j]
      decreases |cells| - j
    {
      Inside(lk, cells, j);
      CellAt(lk, cells, j);
      assert leaf[i + lk..][..ITEM_SIZE] == leaf[i + lk..i + lk + ITEM_SIZE];
      ItemRoundTrip(cells[j].item, leaf[i + lk..]);
      var m := BytesToItem(leaf[i + lk..]);
      var khash := Val(leaf[i..i + 8]) % mask + above;
      FullHash(leaf, i, sh, path, cells[j].hash, x);
      out := out + [Cell(khash, m)];
      i := i + lenItem;
      j := j + 1;
    }
    Inside(lk, cells, j);
  }

  lemma FullHash(leaf: seq<byte>, i: nat, sh: Shape, path: seq<nat>, h: u64, x: nat)
    requires sh.Legal() && i + 8 <= |leaf| && leaf[i..i + sh.KHashLen()] == LE(h, sh.KHashLen())
    requires IsPath(path) && |path| == sh.Fixed() && HasPrefix(h, path)
    requires x == PathVal(path) * Pow16(16 - |path|)
    ensures var p := Pow256(sh.KHashLen()); Val(leaf[i..i + 8]) % p + (x - x % p) == h
  {
    hide LE, HasPrefix, Val, Pow256, Pow16, PathVal, Top;
    LowBytes(leaf, i, sh.KHashLen(), h);
    PrefixIsTop(h, path);
    Rebuild(sh, h, x);
  }

  lemma Times(a: int, b: int, c: int)
    ensures a * b * c == a * (b * c)
  {
  }

  lemma EightDigits()
    ensures Pow16(8) == 0x1_0000_0000
  {
  }

  lemma NodeAbove(path: seq<nat>, x: nat)
    requires IsPath(path) && |path| <= 8 && x == PathVal(path) * Pow16(8 - |path|) * 0x1_0000_0000
    ensures x == PathVal(path) * Pow16(16 - |path|)
  {
    hide Pow16, PathVal;
    Pow16Sum(8 - |path|, 8);
    EightDigits();
    Times(PathVal(path), Pow16(8 - |path|), 0x1_0000_0000);
  }

  /** Masking eight bytes that start with a stored hash. */
  lemma LowBytes(leaf: seq<byte>, i: nat, lk: nat, h: u64)
    requires lk <= 8 && i + 8 <= |leaf| && leaf[i..i + lk] == LE(h, lk)
    ensures Val(leaf[i..i + 8]) % Pow256(lk) == Val(LE(h, lk))
  {
    hide Val, LE, Pow256;
    var a, b := leaf[i..i + lk], leaf[i + lk..i + 8];
    assert leaf[i..i + 8] == a + b;
    ValConcat(a, b);
    ValBound(a);
    DivMod(Val(a + b), Val(b), Pow256(lk), Val(a));
  }

  // ----- a leaf as a map

  ghost predicate Distinct(cells: seq<Cell>) {
    forall i, j :: 0 <= i < j < |cells| ==> cells[i].hash != cells[j].hash
  }

  /** The cells a leaf at this place may hold. */
  ghost predicate CellsOk(path: seq<nat>, cells: seq<Cell>) {
    && Distinct(cells) && AllAligned(cells)
    && forall i :: 0 <= i < |cells| ==> HasPrefix(cells[i].hash, path)
  }

  ghost function MapOf(cells: seq<Cell>): map<u64, Item> {
    if cells == [] then map[]
    else MapOf(cells[..|cells| - 1])[cells[|cells| - 1].hash := cells[|cells| - 1].item]
  }

  lemma {:induction false} MapAt(cells: seq<Cell>, i: nat)
    requires Distinct(cells) && i < |cells|
    ensures cells[i].hash in MapOf(cells) && MapOf(cells)[cells[i].hash] == cells[i].item
  {
    var m := |cells| - 1;
    if i < m {
      MapAt(cells[..m], i);
    }
  }

  lemma {:induction false} MapHas(cells: seq<Cell>, h: u64)
    ensures h in MapOf(cells) <==> exists i :: 0 <= i < |cells| && cells[i].hash == h
  {
    if cells != [] {
      var m := |cells| - 1;
      MapHas(cells[..m], h);
      if i :| 0 <= i < |cells| && cells[i].hash == h {
        assert i < m ==> cells[..m][i].hash == h;
      }
      if h in MapOf(cells[..m]) {
        var i :| 0 <= i < m && cells[..m][i].hash == h;
        assert cells[i].hash == h;
      } else {
        assert cells[m].hash == h ==> h in MapOf(cells);
      }
    }
  }

  /** The byte search finds a cell exactly if the map has the full hash. */
  lemma MatchIsMap(sh: Shape, path: seq<nat>, cells: seq<Cell>, h: u64)
    requires sh.Legal() && IsPath(path) && |path| == sh.Fixed() && CellsOk(path, cells) && HasPrefix(h, path)
    ensures var j := Match(sh.KHashLen(), cells, h);
            && (j < |cells| <==> h in MapOf(cells))
            && (j < |cells| ==> cells[j].hash == h && MapOf(cells)[h] == cells[j].item)
  {
    hide HasPrefix, Top, LE, MapOf;
    var j := Match(sh.KHashLen(), cells, h);
    MapHas(cells, h);
    if j < |cells| {
      PrefixIsTop(h, path);
      PrefixIsTop(cells[j].hash, path);
      LowIdentifies(sh, cells[j].hash, h);
      MapAt(cells, j);
    } else {
      assert forall i :: 0 <= i < |cells| ==> cells[i].hash != h;
    }
  }

  lemma MapEq(a: map<u64, Item>, b: map<u64, Item>)
    requires forall h :: h in a <==> h in b
    requires forall h :: h in a ==> a[h] == b[h]
    ensures a == b
  {
  }

  /** Set on the bytes is an update of the map. */
  lemma SetIsMap(sh: Shape, path: seq<nat>, cells: seq<Cell>, c: Cell)
    requires sh.Legal() && IsPath(path) && |path| == sh.Fixed() && CellsOk(path, cells)
    requires HasPrefix(c.hash, path) && Aligned(c.item)
    ensures var cells' := SetCells(sh.KHashLen(), cells, c);
            CellsOk(path, cells') && MapOf(cells') == MapOf(cells)[c.hash := c.item]
  {
    hide HasPrefix, LE, MapOf, Distinct;
    var lk := sh.KHashLen();
    var j := Match(lk, cells, c.hash);
    MatchIsMap(sh, path, cells, c.hash);
    if j < |cells| {
      ReplaceMap(cells, j, c);
    } else {
      AppendMap(cells, c);
    }
  }

  lemma AppendMap(cells: seq<Cell>, c: Cell)
    requires Distinct(cells) && c.hash !in MapOf(cells)
    ensures Distinct(cells + [c]) && MapOf(cells + [c]) == MapOf(cells)[c.hash := c.item]
  {
    MapHas(cells, c.hash);
    assert (cells + [c])[..|cells|] == cells;
  }

  lemma ReplaceMap(cells: seq<Cell>, j: nat, c: Cell)
    requires Distinct(cells) && j < |cells| && cells[j].hash == c.hash
    ensures Distinct(cells[j := c])
    ensures MapOf(cells[j := c]) == MapOf(cells)[c.hash := c.item]
  {
    hide MapOf;
    var cells' := cells[j := c];
    assert Distinct(cells');
    MapAt(cells, j);
    forall h: u64
      ensures h in MapOf(cells') <==> h in MapOf(cells)[c.hash := c.item]
      ensures h in MapOf(cells') ==> MapOf(cells')[h] == MapOf(cells)[c.hash := c.item][h]
    {
      SameLookup(cells, cells', j, c, h);
    }
    MapEq(MapOf(cells'), MapOf(cells)[c.hash := c.item]);
  }

  lemma SameLookup(cells: seq<Cell>, cells': seq<Cell>, j: nat, c: Cell, h: u64)
    requires Distinct(cells) && Distinct(cells') && j < |cells| && cells[j].hash == c.hash && cells' == cells[j := c]
    ensures h in MapOf(cells') <==> h in MapOf(cells)
    ensures h in MapOf(cells') ==> MapOf(cells')[h] == if h == c.hash then c.item else MapOf(cells)[h]
  {
    hide MapOf;
    MapHas(cells, h);
    MapHas(cells', h);
    assert forall i :: 0 <= i < |cells| ==> cells'[i].hash == cells[i].hash;
    if i :| 0 <= i < |cells| && cells[i].hash == h {
      assert cells'[i].hash == h;
      MapAt(cells, i);
      MapAt(cells', i);
    }
  }

  /** Remove on the bytes removes the key from the map, if the request applies. */
  lemma RemoveIsMap(sh: Shape, path: seq<nat>, cells: seq<Cell>, h: u64, anyPos: bool, offset: u32)
    requires sh.Legal() && IsPath(path) && |path| == sh.Fixed() && CellsOk(path, cells) && HasPrefix(h, path)
    ensures var cells' := RemoveCells(sh.KHashLen(), cells, h, anyPos, offset);
            && CellsOk(path, cells')
            && MapOf(cells') ==
               if h in MapOf(cells) && Applies(MapOf(cells)[h], anyPos, offset) then MapOf(cells) - {h}
               else MapOf(cells)
  {
    hide HasPrefix, LE, MapOf;
    var lk := sh.KHashLen();
    var j := Match(lk, cells, h);
    MatchIsMap(sh, path, cells, h);
    if j < |cells| && Applies(cells[j].item, anyPos, offset) {
      DropMap(cells, j);
    }
  }

  lemma DropMap(cells: seq<Cell>, j: nat)
    requires Distinct(cells) && j < |cells|
    ensures Distinct(cells[..j] + cells[j + 1..])
    ensures MapOf(cells[..j] + cells[j + 1..]) == MapOf(cells) - {cells[j].hash}
  {
    hide MapOf;
    var cells' := cells[..j] + cells[j + 1..];
    DropDistinct(cells, j);
    forall h: u64
      ensures h in MapOf(cells') <==> h in MapOf(cells) && h != cells[j].hash
      ensures h in MapOf(cells') ==> MapOf(cells')[h] == MapOf(cells)[h]
    {
      DropLookup(cells, j, h);
    }
    MapEq(MapOf(cells'), MapOf(cells) - {cells[j].hash});
  }

  lemma DropDistinct(cells: seq<Cell>, j: nat)
    requires Distinct(cells) && j < |cells|
    ensures Distinct(cells[..j] + cells[j + 1..])
  {
  }

  lemma DropLookup(cells: seq<Cell>, j: nat, h: u64)
    requires Distinct(cells) && j < |cells|
    ensures var cells' := cells[..j] + cells[j + 1..];
            && (h in MapOf(cells') <==> h in MapOf(cells) && h != cells[j].hash)
            && (h in MapOf(cells') ==> MapOf(cells')[h] == MapOf(cells)[h])
  {
    hide MapOf;
    var cells' := cells[..j] + cells[j + 1..];
    DropDistinct(cells, j);
    assert forall i :: 0 <= i < |cells| && i != j ==> cells[i] == cells'[if i < j then i else i - 1];
    MapHas(cells, h);
    MapHas(cells', h);
    if i :| 0 <= i < |cells'| && cells'[i].hash == h {
      MapAt(cells', i);
      var k := if i < j then i else i + 1;
      assert cells[k] == cells'[i];
      MapAt(cells, k);
    }
  }
}
