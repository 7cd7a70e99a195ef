/**
  The hash tree of a bucket: 16 children per node, packed leaves at the bottom,
  leaf summaries kept up to date, inner summaries invalidated on the way down
  and recomputed on demand.
*/
module TreeSpec {
  import opened Bytes
  import opened Nibbles
  import opened Leaf
  import opened Merkle

  // ----- places in the tree

  /** The offset of the node above hash h at a level. */
  function Idx(depth: nat, h: nat, level: nat): nat
    requires depth + level <= 16
  {
    if level == 0 then 0 else 16 * Idx(depth, h, level - 1) + Nibble(h, depth + level - 1)
  }

  function Digits(o: nat, n: nat): (p: seq<nat>)
    ensures |p| == n && forall i :: 0 <= i < n ==> p[i] < 16
  {
    if n == 0 then [] else Digits(o / 16, n - 1) + [o % 16]
  }

  lemma {:induction false} IdxBound(depth: nat, h: nat, level: nat)
    requires depth + level <= 16
    ensures Idx(depth, h, level) < Pow16(level)
  {
    if level > 0 {
      IdxBound(depth, h, level - 1);
    }
  }

  lemma {:induction false} IdxAbove(depth: nat, h: nat, level: nat, d: nat)
    requires depth + level <= 16 && d <= level
    ensures Above(Idx(depth, h, level), d) == Idx(depth, h, level - d)
  {
    if d > 0 {
      IdxAbove(depth, h, level, d - 1);
    }
  }

  /** A hash has the path of a node exactly if it is in the bucket and the node is
      above it. */
  lemma {:induction false} IdxIsPath(bp: seq<nat>, h: nat, o: nat, level: nat)
    requires |bp| + level <= 16 && o < Pow16(level)
    ensures HasPrefix(h, bp + Digits(o, level)) <==> HasPrefix(h, bp) && Idx(|bp|, h, level) == o
  {
    if level == 0 {
      assert bp + Digits(o, level) == bp;
    } else {
      var p, q := bp + Digits(o / 16, level - 1), bp + Digits(o, level);
      IdxIsPath(bp, h, o / 16, level - 1);
      assert q == p + [o % 16];
      assert HasPrefix(h, q) <==> HasPrefix(h, p) && o % 16 == Nibble(h, |p|) by {
        hide Nibble;
        assert forall i :: 0 <= i < |p| ==> q[i] == p[i];
      }
    }
  }

  // ----- the tree's invariant, over values

  ghost predicate Sized(sh: Shape, levels: seq<seq<Node>>) {
    && |levels| == sh.height
    && forall l :: 0 <= l < sh.height ==> |levels[l]| == Pow16(l)
  }

  ghost predicate LeafOk(sh: Shape, bp: seq<nat>, o: nat, leaf: seq<byte>, cells: seq<Cell>, node: Node)
    requires sh.Legal()
  {
    && leaf == Pack(sh.KHashLen(), cells)
    && CellsOk(bp + Digits(o, sh.height - 1), cells)
    && node == LeafNode(cells)
  }

  ghost predicate Up(levels: seq<seq<Node>>, l: nat, o: nat) {
    l < |levels| && o < |levels[l]| && levels[l][o].updated
  }

  ghost predicate AllUp(levels: seq<seq<Node>>, l: nat, from: nat) {
    forall c :: from <= c < from + 16 ==> Up(levels, l, c)
  }

  /** An updated node equals its recomputation, and so do its children. */
  ghost predicate NodeOk(sh: Shape, levels: seq<seq<Node>>, l: nat, o: nat)
    requires |levels| == sh.height && l < sh.height && o < |levels[l]|
  {
    levels[l][o].updated ==>
      && levels[l][o] == Fresh(levels[sh.height - 1], sh.height - 1 - l, o)
      && (l + 1 < sh.height ==> AllUp(levels, l + 1, 16 * o))
  }

  ghost predicate NodesOk(sh: Shape, levels: seq<seq<Node>>)
    requires |levels| == sh.height
  {
    forall l, o :: 0 <= l < sh.height && 0 <= o < |levels[l]| ==> NodeOk(sh, levels, l, o)
  }

  ghost predicate LeavesOk(sh: Shape, bp: seq<nat>, levels: seq<seq<Node>>, leafs: seq<seq<byte>>,
                           cells: seq<seq<Cell>>)
    requires sh.Legal() && |levels| == sh.height
  {
    && |levels[sh.height - 1]| == |leafs| == |cells|
    && forall o :: 0 <= o < |cells| ==> LeafOk(sh, bp, o, leafs[o], cells[o], levels[sh.height - 1][o])
  }

  /** The levels after the leaf node q and the nodes above it changed. */
  ghost predicate Invalidated(sh: Shape, levels: seq<seq<Node>>, levels': seq<seq<Node>>, q: nat)
    requires sh.height >= 1
  {
    && |levels| == |levels'| == sh.height
    && (forall l :: 0 <= l < sh.height ==> |levels'[l]| == |levels[l]|)
    && forall l, o :: 0 <= l < sh.height && 0 <= o < |levels[l]| ==>
         if Above(q, sh.height - 1 - l) == o then l < sh.height - 1 ==> !levels'[l][o].updated
         else levels'[l][o] == levels[l][o]
  }

  /** Invalidating the path keeps every other summary right. */
  lemma InvalidateKeeps(sh: Shape, levels: seq<seq<Node>>, levels': seq<seq<Node>>, q: nat)
    requires sh.Legal() && Sized(sh, levels) && NodesOk(sh, levels)
    requires q < |levels[sh.height - 1]| && Invalidated(sh, levels, levels', q)
    requires levels'[sh.height - 1][q].updated
    ensures NodesOk(sh, levels')
  {
    var h := sh.height - 1;
    var row, row' := levels[h], levels'[h];
    assert row' == row[q := row'[q]] by {
      assert forall o :: 0 <= o < |row| && o != q ==> levels'[h][o] == levels[h][o];
    }
    forall l, o | 0 <= l < sh.height && 0 <= o < |levels'[l]|
      ensures NodeOk(sh, levels', l, o)
    {
      if levels'[l][o].updated {
        if Above(q, h - l) == o {
          assert l == h;
        } else {
          assert NodeOk(sh, levels, l, o);
          FreshFrame(row, q, row'[q], h - l, o);
          if l < h {
            var below, from := l + 1, 16 * o;
            forall c | from <= c < from + 16
              ensures Up(levels', below, c)
            {
              assert Up(levels, below, c);
              assert Above(q, h - l) == Above(q, h - l - 1) / 16;
              assert Above(q, h - (l + 1)) != c;
            }
          }
        }
      }
    }
  }

  // ----- recomputation

  /** Nodes that were up to date stay as they are; sizes and leaves stay too. */
  ghost predicate Refreshed(levels: seq<seq<Node>>, levels': seq<seq<Node>>) {
    && |levels'| == |levels|
    && (forall l :: 0 <= l < |levels| ==> |levels'[l]| == |levels[l]|)
    && forall l, o :: 0 <= l < |levels| && 0 <= o < |levels[l]| && levels[l][o].updated ==>
      levels'[l][o] == levels[l][o]
  }

  /** Setting a node whose children are up to date to their combination. */
  lemma StoreKeeps(sh: Shape, levels: seq<seq<Node>>, level: nat, offset: nat)
    requires sh.Legal() && Sized(sh, levels) && NodesOk(sh, levels)
    requires level < sh.height - 1 && offset < |levels[level]| && AllUp(levels, level + 1, 16 * offset)
    ensures var node := Fresh(levels[sh.height - 1], sh.height - 1 - level, offset);
            var levels' := levels[level := levels[level][offset := node]];
            node.updated && Sized(sh, levels') && NodesOk(sh, levels') && Refreshed(levels, levels')
  {
    var h := sh.height - 1;
    var node := Fresh(levels[h], h - level, offset);
    var levels' := levels[level := levels[level][offset := node]];
    forall l, o | 0 <= l < sh.height && 0 <= o < |levels'[l]|
      ensures NodeOk(sh, levels', l, o)
    {
      if levels'[l][o].updated {
        if l == level && o == offset {
          UpStays(levels, levels', l + 1, 16 * o);
        } else {
          assert NodeOk(sh, levels, l, o);
          if l < h {
            UpStays(levels, levels', l + 1, 16 * o);
          }
        }
      }
    }
    assert NodeOk(sh, levels, level, offset);
  }

  lemma UpStays(levels: seq<seq<Node>>, levels': seq<seq<Node>>, l: nat, from: nat)
    requires AllUp(levels, l, from) && |levels'| == |levels|
    requires forall m, o :: 0 <= m < |levels| && 0 <= o < |levels[m]| ==>
               |levels'[m]| == |levels[m]| && (levels[m][o].updated ==> levels'[m][o].updated)
    ensures AllUp(levels', l, from)
  {
    forall c | from <= c < from + 16
      ensures Up(levels', l, c)
    {
      assert Up(levels, l, c);
    }
  }

  /** Children that are up to date equal their recomputation. */
  lemma ChildFresh(sh: Shape, levels: seq<seq<Node>>, level: nat, c: nat)
    requires sh.Legal() && Sized(sh, levels) && NodesOk(sh, levels) && level < sh.height && Up(levels, level, c)
    ensures levels[level][c] == Fresh(levels[sh.height - 1], sh.height - 1 - level, c)
  {
    assert NodeOk(sh, levels, level, c);
  }

  // ----- leaf summaries, incrementally

  /** setToLeaf's arithmetic, with its wrap-around. */
  method SetSummary(node: Node, h: u64, item: Item, exist: bool, oldm: Item) returns (node': Node)
    ensures node'.updated == node.updated
    ensures node'.count == (node.count + LiveOf(item) - (if exist then LiveOf(oldm) else 0)) % M32
    ensures node'.hash == (node.hash + HashOf(h, item) - (if exist then HashOf(h, oldm) else 0)) % M16
  {
    hide Weight, Weighed;
    var vhash: u16 := 0;
    var count: int := node.count;
    ghost var a: u16, b: u16 := 0, 0;
    if item.ver > 0 {
      vhash := (vhash + item.vhash) % M16;
      count := count + 1;
      a := item.vhash;
    }
    if exist && oldm.ver > 0 {
      vhash := (vhash - oldm.vhash) % M16;
      count := count - 1;
      b := oldm.vhash;
    }
    var w := Weight(h);
    node' := Node(count % M32, Weighed(node.hash, vhash, w), node.updated);
    Difference(a, b, vhash);
    WeighedDifference(node.hash, a, b, w);
    NoWeight(w);
  }

  /** A 16-bit hash with a weighed value hash added. */
  function Weighed(hash: u16, vhash: u16, w: nat): u16 {
    (hash + vhash * w % M16) % M16
  }

  lemma NoWeight(w: int)
    ensures 0 * w == 0
  {
  }

  lemma Difference(a: u16, b: u16, d: u16)
    requires d == (a - b) % M16 || (b == 0 && d == a % M16)
    ensures d == (a - b) % M16
  {
  }

  /** A wrapped difference of value hashes, weighed and added, is the exact one, reduced. */
  lemma WeighedDifference(hash: u16, a: u16, b: u16, w: nat)
    ensures Weighed(hash, (a - b) % M16, w) == (hash + a * w - b * w) % M16
  {
    WrapProduct(a - b, w, M16);
    WrapSum((a - b) * w, hash, M16);
    assert (a - b) * w == a * w - b * w;
  }

  lemma SetNode(lk: nat, cells: seq<Cell>, c: Cell, node': Node)
    requires var j := Match(lk, cells, c.hash); j < |cells| ==> cells[j].hash == c.hash
    requires node'.updated
    requires var j := Match(lk, cells, c.hash);
             var live := if j < |cells| then LiveOf(cells[j].item) else 0;
             var hashed := if j < |cells| then HashOf(c.hash, cells[j].item) else 0;
             && node'.count == (Live(cells) % M32 + LiveOf(c.item) - live) % M32
             && node'.hash == (HashSum(cells) % M16 + HashOf(c.hash, c.item) - hashed) % M16
    ensures node' == LeafNode(SetCells(lk, cells, c))
  {
    hide Live, HashSum, HashOf, LiveOf, LE;
    var j := Match(lk, cells, c.hash);
    var dl := LiveOf(c.item) - (if j < |cells| then LiveOf(cells[j].item) else 0);
    var dh := HashOf(c.hash, c.item) - (if j < |cells| then HashOf(c.hash, cells[j].item) else 0);
    WrapSum(Live(cells), dl, M32);
    WrapSum(HashSum(cells), dh, M16);
    if j < |cells| {
      SumsReplace(cells, j, c);
    } else {
      SumsSnoc(cells, c);
    }
  }

  /** remvoeFromLeaf's arithmetic. */
  method RemoveSummary(node: Node, h: u64, removed: bool, oldm: Item) returns (node': Node)
    ensures node'.updated == node.updated
    ensures node'.count == (node.count - (if removed then LiveOf(oldm) else 0)) % M32
    ensures node'.hash == (node.hash - (if removed then HashOf(h, oldm) else 0)) % M16
  {
    node' := node;
    if removed && oldm.ver > 0 {
      var x := oldm.vhash * Weight(h);
      WrapNegate(x, node.hash, M16);
      node' := Node((node.count - 1) % M32, (node.hash - x % M16) % M16, node.updated);
    }
  }

  lemma WrapNegate(x: int, a: int, m: int)
    requires m > 0
    ensures (a - x % m) % m == (a - x) % m
  {
    var q, y := x / m, a - x % m;
    assert a - x == -q * m + y;
    assert (-q + y / m) * m == -q * m + y / m * m;
    DivMod(a - x, -q + y / m, m, y % m);
  }

  lemma RemoveNode(lk: nat, cells: seq<Cell>, h: u64, anyPos: bool, offset: u32, node': Node)
    requires var j := Match(lk, cells, h); j < |cells| ==> cells[j].hash == h
    requires node'.updated
    requires var j := Match(lk, cells, h); var removed := j < |cells| && Applies(cells[j].item, anyPos, offset);
             && node'.count == (Live(cells) % M32 - (if removed then LiveOf(cells[j].item) else 0)) % M32
             && node'.hash == (HashSum(cells) % M16 - (if removed then HashOf(h, cells[j].item) else 0)) % M16
    ensures node' == LeafNode(RemoveCells(lk, cells, h, anyPos, offset))
  {
    hide Live, HashSum, HashOf, LiveOf, LE, Match;
    var j := Match(lk, cells, h);
    if j < |cells| && Applies(cells[j].item, anyPos, offset) {
      Lowered(Live(cells), HashSum(cells), LiveOf(cells[j].item), HashOf(h, cells[j].item), node');
      SumsDrop(cells, j);
    } else {
      Lowered(Live(cells), HashSum(cells), 0, 0, node');
    }
  }

  lemma Lowered(live: nat, hs: nat, dl: nat, dh: nat, node: Node)
    requires node.updated && node.count == (live % M32 - dl) % M32 && node.hash == (hs % M16 - dh) % M16
    ensures node == Node((live - dl) % M32, (hs - dh) % M16, true)
  {
    WrapSum(live, 0 - dl, M32);
    WrapSum(hs, 0 - dh, M16);
  }
}
