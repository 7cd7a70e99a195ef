/**
  What lies below a node of the tree, over values: its cells in order, which of
  them start with given digits, and how the node's summary depends on them.
*/
module TreeListing {
  import opened Bytes
  import opened Nibbles
  import opened Leaf
  import opened Merkle
  import opened TreeSpec

  // ----- the cells below a node

  /** The cells of the leaves below the node d levels up, at offset o. */
  function Sub(cells: seq<seq<Cell>>, d: nat, o: nat): seq<Cell>
    decreases d, 17
  {
    if d == 0 then if o < |cells| then cells[o] else []
    else SubPart(cells, d, o, 16)
  }

  /** Those below its first n children. */
  function SubPart(cells: seq<seq<Cell>>, d: nat, o: nat, n: nat): seq<Cell>
    requires d > 0 && n <= 16
    decreases d, n
  {
    if n == 0 then [] else SubPart(cells, d, o, n - 1) + Sub(cells, d - 1, 16 * o + (n - 1))
  }

  /** Every cell is in the leaf its hash leads to. */
  ghost predicate Placed(depth: nat, top: nat, cells: seq<seq<Cell>>)
    requires depth + top <= 16
  {
    forall q, c :: 0 <= q < |cells| && c in cells[q] ==> Idx(depth, c.hash, top) == q
  }

  ghost predicate At(depth: nat, top: nat, cells: seq<seq<Cell>>, c: Cell)
    requires depth + top <= 16
  {
    var q := Idx(depth, c.hash, top);
    q < |cells| && c in cells[q]
  }

  /** A cell is below a node exactly if it is in the tree and its hash leads there. */
  lemma {:induction false} SubIn(depth: nat, top: nat, cells: seq<seq<Cell>>, d: nat, o: nat, c: Cell)
    requires depth + top <= 16 && d <= top && Placed(depth, top, cells)
    ensures c in Sub(cells, d, o) <==> Idx(depth, c.hash, top - d) == o && At(depth, top, cells, c)
    decreases d, 17
  {
    if d > 0 {
      SubPartIn(depth, top, cells, d, o, 16, c);
      hide Nibble;
      assert Idx(depth, c.hash, top - d + 1) == 16 * Idx(depth, c.hash, top - d) + Nibble(c.hash, depth + (top - d));
    }
  }

  lemma {:induction false} SubPartIn(depth: nat, top: nat, cells: seq<seq<Cell>>, d: nat, o: nat, n: nat, c: Cell)
    requires depth + top <= 16 && 0 < d <= top && n <= 16 && Placed(depth, top, cells)
    ensures c in SubPart(cells, d, o, n) <==>
              16 * o <= Idx(depth, c.hash, top - d + 1) < 16 * o + n && At(depth, top, cells, c)
    decreases d, n
  {
    if n > 0 {
      hide Idx, Sub, At, Placed;
      SubPartIn(depth, top, cells, d, o, n - 1, c);
      SubIn(depth, top, cells, d - 1, 16 * o + (n - 1), c);
    }
  }

  ghost predicate EachDistinct(cells: seq<seq<Cell>>) {
    forall q :: 0 <= q < |cells| ==> Distinct(cells[q])
  }

  lemma {:induction false} SubDistinct(depth: nat, top: nat, cells: seq<seq<Cell>>, d: nat, o: nat)
    requires depth + top <= 16 && d <= top && Placed(depth, top, cells) && EachDistinct(cells)
    ensures Distinct(Sub(cells, d, o))
    decreases d, 17
  {
    if d > 0 {
      SubPartDistinct(depth, top, cells, d, o, 16);
    }
  }

  lemma {:induction false} SubPartDistinct(depth: nat, top: nat, cells: seq<seq<Cell>>, d: nat, o: nat, n: nat)
    requires depth + top <= 16 && 0 < d <= top && n <= 16 && Placed(depth, top, cells) && EachDistinct(cells)
    ensures Distinct(SubPart(cells, d, o, n))
    decreases d, n
  {
    if n > 0 {
      hide Sub, SubPart, At, Placed, Idx;
      var a, b := SubPart(cells, d, o, n - 1), Sub(cells, d - 1, 16 * o + (n - 1));
      SubPartDistinct(depth, top, cells, d, o, n - 1);
      SubDistinct(depth, top, cells, d - 1, 16 * o + (n - 1));
      forall i, j | 0 <= i < |a| && 0 <= j < |b|
        ensures a[i].hash != b[j].hash
      {
        SubPartIn(depth, top, cells, d, o, n - 1, a[i]);
        SubIn(depth, top, cells, d - 1, 16 * o + (n - 1), b[j]);
      }
      DistinctConcat(a, b);
      SubPartNext(cells, d, o, n);
    } else {
      assert SubPart(cells, d, o, 0) == [];
    }
  }

  lemma SubPartNext(cells: seq<seq<Cell>>, d: nat, o: nat, n: nat)
    requires d > 0 && 0 < n <= 16
    ensures SubPart(cells, d, o, n) == SubPart(cells, d, o, n - 1) + Sub(cells, d - 1, 16 * o + (n - 1))
  {
  }

  lemma DistinctConcat(a: seq<Cell>, b: seq<Cell>)
    requires Distinct(a) && Distinct(b)
    requires forall i, j :: 0 <= i < |a| && 0 <= j < |b| ==> a[i].hash != b[j].hash
    ensures Distinct(a + b)
  {
  }

  // ----- filtering by digits

  ghost function Filtered(s: seq<Cell>, p: seq<nat>): seq<Cell> {
    if s == [] then []
    else
      var rest := Filtered(s[..|s| - 1], p);
      if HasPrefix(s[|s| - 1].hash, p) then rest + [s[|s| - 1]] else rest
  }

  lemma {:induction false} FilteredIn(s: seq<Cell>, p: seq<nat>, c: Cell)
    ensures c in Filtered(s, p) <==> c in s && HasPrefix(c.hash, p)
  {
    if s != [] {
      hide HasPrefix;
      FilteredIn(s[..|s| - 1], p, c);
      assert s == s[..|s| - 1] + [s[|s| - 1]];
    }
  }

  lemma {:induction false} FilteredDistinct(s: seq<Cell>, p: seq<nat>)
    requires Distinct(s)
    ensures Distinct(Filtered(s, p))
  {
    if s != [] {
      hide HasPrefix;
      var init, last := s[..|s| - 1], s[|s| - 1];
      FilteredDistinct(init, p);
      forall i | 0 <= i < |Filtered(init, p)|
        ensures Filtered(init, p)[i].hash != last.hash
      {
        FilteredIn(init, p, Filtered(init, p)[i]);
      }
    }
  }

  lemma {:induction false} FilteredConcat(a: seq<Cell>, b: seq<Cell>, p: seq<nat>)
    ensures Filtered(a + b, p) == Filtered(a, p) + Filtered(b, p)
  {
    if b == [] {
      assert a + b == a;
    } else {
      hide HasPrefix;
      var m := |b| - 1;
      FilteredConcat(a, b[..m], p);
      assert (a + b)[..|a| + m] == a + b[..m];
    }
  }

  lemma FilteredNext(s: seq<Cell>, p: seq<nat>, i: nat)
    requires i < |s|
    ensures Filtered(s[..i + 1], p) == Filtered(s[..i], p) + if HasPrefix(s[i].hash, p) then [s[i]] else []
  {
    hide HasPrefix;
    assert s[..i + 1][..i] == s[..i];
  }

  /** Masking out the digits below a prefix and comparing tests the prefix. */
  lemma MaskTests(h: u64, p: seq<nat>)
    requires IsPath(p)
    ensures var w := Pow16(16 - |p|); h - h % w == PathVal(p) * w <==> HasPrefix(h, p)
  {
    hide Top, Pow16, PathVal, HasPrefix;
    var w := Pow16(16 - |p|);
    var rest := TopSplit(h, |p|);
    DivMod(h, Top(h, |p|), w, rest);
    PrefixIsTop(h, p);
    Cancel(Top(h, |p|), PathVal(p), w);
  }

  lemma Cancel(a: int, b: int, w: int)
    requires w > 0
    ensures a * w == b * w <==> a == b
  {
    assert (a - b) * w == a * w - b * w;
  }

  /** The offset of the node a digit sequence leads to. */
  lemma {:induction false} DigitsVal(p: seq<nat>)
    requires forall i :: 0 <= i < |p| ==> p[i] < 16
    ensures Digits(PathVal(p), |p|) == p && PathVal(p) < Pow16(|p|)
  {
    if p != [] {
      var m := |p| - 1;
      DigitsVal(p[..m]);
      assert p == p[..m] + [p[m]];
    }
  }

  // ----- summaries

  /** The leaf row's summaries. */
  function Row(cells: seq<seq<Cell>>): (row: seq<Node>)
    ensures |row| == |cells|
  {
    seq(|cells|, q requires 0 <= q < |cells| => LeafNode(cells[q]))
  }

  /** A node's count is the number of live keys below it, as a 32-bit number. */
  lemma {:induction false} CountIsLive(cells: seq<seq<Cell>>, d: nat, o: nat)
    ensures Fresh(Row(cells), d, o).count == Live(Sub(cells, d, o)) % M32
    decreases d, 17
  {
    if d > 0 {
      var ns := Children(Row(cells), d, o);
      CountPart(cells, d, o, 16);
      assert ns[..16] == ns;
    }
  }

  lemma {:induction false} CountPart(cells: seq<seq<Cell>>, d: nat, o: nat, n: nat)
    requires d > 0 && n <= 16
    ensures SumCounts(Children(Row(cells), d, o)[..n]) % M32 == Live(SubPart(cells, d, o, n)) % M32
    decreases d, n
  {
    hide Sub, SubPart, Fresh, Row, Live, Children, SumCounts, HashSum;
    if n > 0 {
      var a, b := SubPart(cells, d, o, n - 1), Sub(cells, d - 1, 16 * o + (n - 1));
      CountPart(cells, d, o, n - 1);
      CountIsLive(cells, d - 1, 16 * o + (n - 1));
      ChildIs(cells, d, o, n - 1);
      SubPartNext(cells, d, o, n);
      SumsConcat(a, b);
      SumsWrap(Children(Row(cells), d, o), n, Live(a), Live(b));
    } else {
      NothingBelow(cells, d, o);
    }
  }

  lemma ChildIs(cells: seq<seq<Cell>>, d: nat, o: nat, i: nat)
    requires d > 0 && i < 16
    ensures Children(Row(cells), d, o)[i] == Fresh(Row(cells), d - 1, 16 * o + i)
  {
    hide Fresh, Row;
  }

  lemma NothingBelow(cells: seq<seq<Cell>>, d: nat, o: nat)
    requires d > 0
    ensures Children(Row(cells), d, o)[..0] == [] && SubPart(cells, d, o, 0) == []
    ensures SumCounts([]) == 0 && FoldHash([], false) == 0 && Live([]) == 0 && HashSum([]) == 0
  {
    hide Row, Children;
  }

  lemma SumsWrap(ns: seq<Node>, n: nat, x: nat, y: nat)
    requires 0 < n <= |ns| && SumCounts(ns[..n - 1]) % M32 == x % M32 && ns[n - 1].count == y % M32
    ensures SumCounts(ns[..n]) % M32 == (x + y) % M32
  {
    var s := SumCounts(ns[..n - 1]);
    assert ns[..n][..n - 1] == ns[..n - 1];
    WrapSum(s, y % M32, M32);
    WrapSum(x, y % M32, M32);
    WrapSum(y, x, M32);
  }

  lemma FoldWraps(ns: seq<Node>, n: nat, x: nat, y: nat)
    requires 0 < n <= |ns| && FoldHash(ns[..n - 1], false) == x % M16 && ns[n - 1].hash == y % M16
    ensures FoldHash(ns[..n], false) == (x + y) % M16
  {
    assert ns[..n][..n - 1] == ns[..n - 1];
    WrapSum(x, y % M16, M16);
    WrapSum(y, x, M16);
  }

  /** With few live keys below it, a node's hash adds up at every level. */
  lemma {:induction false} SmallSum(cells: seq<seq<Cell>>, d: nat, o: nat)
    requires Live(Sub(cells, d, o)) <= THRESHOLD_BIG_HASH
    ensures Fresh(Row(cells), d, o).hash == HashSum(Sub(cells, d, o)) % M16
    decreases d, 17
  {
    if d > 0 {
      var ns := Children(Row(cells), d, o);
      CountIsLive(cells, d, o);
      SmallPart(cells, d, o, 16);
      assert ns[..16] == ns;
    }
  }

  lemma {:induction false} SmallPart(cells: seq<seq<Cell>>, d: nat, o: nat, n: nat)
    requires d > 0 && n <= 16 && Live(SubPart(cells, d, o, n)) <= THRESHOLD_BIG_HASH
    ensures FoldHash(Children(Row(cells), d, o)[..n], false) == HashSum(SubPart(cells, d, o, n)) % M16
    decreases d, n
  {
    hide Sub, SubPart, Fresh, Row, Live, Children, HashSum, FoldHash;
    if n > 0 {
      var a, b := SubPart(cells, d, o, n - 1), Sub(cells, d - 1, 16 * o + (n - 1));
      SubPartNext(cells, d, o, n);
      SumsConcat(a, b);
      SmallPart(cells, d, o, n - 1);
      SmallSum(cells, d - 1, 16 * o + (n - 1));
      ChildIs(cells, d, o, n - 1);
      FoldWraps(Children(Row(cells), d, o), n, HashSum(a), HashSum(b));
    } else {
      NothingBelow(cells, d, o);
    }
  }

  /** The weight of a key is the number that digits 4 to 7 of its hash spell. */
  lemma WeightDigits(h: u64)
    ensures Weight(h) == 4096 * Nibble(h, 4) + 256 * Nibble(h, 5) + 16 * Nibble(h, 6) + Nibble(h, 7)
  {
    hide Top, Nibble;
    var rest := TopSplit(h, 8);
    assert Pow16(8) == 0x1_0000_0000;
    DivMod(h, Top(h, 8), 0x1_0000_0000, rest);
    TopStep(h, 7);
    TopStep(h, 6);
    TopStep(h, 5);
    TopStep(h, 4);
    DivMod(Top(h, 8), Top(h, 4), M16,
           4096 * Nibble(h, 4) + 256 * Nibble(h, 5) + 16 * Nibble(h, 6) + Nibble(h, 7));
  }

  /** Over the live keys, value hash times digits 4 to 7 of the key's hash. */
  function PlainSum(cells: seq<Cell>): int {
    if cells == [] then 0
    else
      var c := cells[|cells| - 1];
      var rest := PlainSum(cells[..|cells| - 1]);
      if c.item.ver <= 0 then rest
      else
        rest + c.item.vhash *
               (4096 * Nibble(c.hash, 4) + 256 * Nibble(c.hash, 5) + 16 * Nibble(c.hash, 6) + Nibble(c.hash, 7))
  }

  lemma {:induction false} HashSumIsPlain(cells: seq<Cell>)
    ensures HashSum(cells) == PlainSum(cells)
  {
    hide Nibble, Weight;
    if cells != [] {
      WeightDigits(cells[|cells| - 1].hash);
      HashSumIsPlain(cells[..|cells| - 1]);
    }
  }

  /** With few live keys below it, a node's hash is the plain sum over them, whatever the
      height of the tree. */
  lemma SmallIsPlain(cells: seq<seq<Cell>>, d: nat, o: nat)
    requires Live(Sub(cells, d, o)) <= THRESHOLD_BIG_HASH
    ensures Fresh(Row(cells), d, o).hash == PlainSum(Sub(cells, d, o)) % M16
  {
    hide PlainSum, HashSum, Sub, Fresh;
    SmallSum(cells, d, o);
    HashSumIsPlain(Sub(cells, d, o));
  }

  // ----- summaries depend on live content only

  /** The value hash that a live cell with this hash contributes. */
  ghost function LiveValue(cells: seq<Cell>, h: u64): Option<u16> {
    var m := MapOf(cells);
    if h in m && m[h].ver > 0 then Some(m[h].vhash) else None
  }

  ghost predicate SameLive(a: seq<Cell>, b: seq<Cell>) {
    forall h: u64 :: LiveValue(a, h) == LiveValue(b, h)
  }

  lemma {:induction false} NothingLive(b: seq<Cell>)
    requires Distinct(b) && SameLive([], b)
    ensures Live(b) == 0 && HashSum(b) == 0
  {
    if b != [] {
      var m := |b| - 1;
      assert LiveValue([], b[m].hash) == LiveValue(b, b[m].hash);
      DropLast(b);
      NothingLive(b[..m]);
    }
  }

  /** Dropping a cell with no live value. */
  lemma DropLast(b: seq<Cell>)
    requires b != [] && Distinct(b) && b[|b| - 1].item.ver <= 0
    ensures SameLive(b, b[..|b| - 1]) && Distinct(b[..|b| - 1])
  {
    var m := |b| - 1;
    forall h: u64
      ensures LiveValue(b, h) == LiveValue(b[..m], h)
    {
      if h == b[m].hash {
        MapHas(b[..m], h);
      }
    }
  }

  lemma SameWithout(a: seq<Cell>, b: seq<Cell>, i: nat, j: nat)
    requires Distinct(a) && Distinct(b) && SameLive(a, b) && i < |a| && j < |b| && a[i].hash == b[j].hash
    ensures SameLive(a[..i] + a[i + 1..], b[..j] + b[j + 1..])
  {
    hide MapOf;
    DropMap(a, i);
    DropMap(b, j);
    var a', b' := a[..i] + a[i + 1..], b[..j] + b[j + 1..];
    forall h: u64
      ensures LiveValue(a', h) == LiveValue(b', h)
    {
      assert LiveValue(a, h) == LiveValue(b, h);
    }
  }

  /** Leaves with the same live keys and value hashes have the same summary. */
  lemma {:induction false} SameLiveSameSums(a: seq<Cell>, b: seq<Cell>)
    requires Distinct(a) && Distinct(b) && SameLive(a, b)
    ensures Live(a) == Live(b) && HashSum(a) == HashSum(b)
    decreases |a|
  {
    if a == [] {
      NothingLive(b);
    } else {
      var m := |a| - 1;
      if a[m].item.ver <= 0 {
        DropLast(a);
        SameLiveSameSums(a[..m], b);
      } else {
        var h := a[m].hash;
        assert LiveValue(a, h) == LiveValue(b, h);
        MapHas(b, h);
        var j :| 0 <= j < |b| && b[j].hash == h;
        MapAt(b, j);
        SameWithout(a, b, m, j);
        DropDistinct(b, j);
        assert a[..m] + a[m + 1..] == a[..m];
        SameLiveSameSums(a[..m], b[..j] + b[j + 1..]);
        SumsDrop(b, j);
      }
    }
  }

  /** Trees with the same live content have the same summaries everywhere. */
  lemma ContentDecides(cells: seq<seq<Cell>>, cells': seq<seq<Cell>>, d: nat, o: nat)
    requires |cells| == |cells'| && EachDistinct(cells) && EachDistinct(cells')
    requires forall q :: 0 <= q < |cells| ==> SameLive(cells[q], cells'[q])
    ensures Fresh(Row(cells), d, o) == Fresh(Row(cells'), d, o)
  {
    forall q | 0 <= q < |cells|
      ensures Row(cells)[q] == Row(cells')[q]
    {
      SameLiveSameSums(cells[q], cells'[q]);
    }
    assert Row(cells) == Row(cells');
  }
}
