/**
  The tree on disk: leaf summaries and packed leaves in order. A tree loaded from
  what another tree dumped holds the same entries.
*/
module TreeDump {
  import opened Bytes
  import opened Nibbles
  import opened Leaf
  import opened Merkle
  import opened TreeSpec
  import opened HTree

  // ----- the format

  function NodeBytes(n: Node): (b: seq<byte>)
    ensures |b| == 6
  {
    LE(n.count, 4) + LE(n.hash, 2)
  }

  function LeafBytes(leaf: seq<byte>): (b: seq<byte>)
    ensures |b| == 4 + |leaf|
  {
    LE(|leaf|, 4) + leaf
  }

  function RowBytes(row: seq<Node>): (b: seq<byte>)
    ensures |b| == 6 * |row|
  {
    if row == [] then [] else RowBytes(row[..|row| - 1]) + NodeBytes(row[|row| - 1])
  }

  function LeavesBytes(leafs: seq<seq<byte>>): seq<byte> {
    if leafs == [] then [] else LeavesBytes(leafs[..|leafs| - 1]) + LeafBytes(leafs[|leafs| - 1])
  }

  ghost predicate Short(leafs: seq<seq<byte>>) {
    forall i :: 0 <= i < |leafs| ==> |leafs[i]| < 0x1_0000_0000
  }

  lemma RowNext(row: seq<Node>, i: nat)
    requires i < |row|
    ensures RowBytes(row[..i + 1]) == RowBytes(row[..i]) + NodeBytes(row[i])
  {
    assert row[..i + 1][..i] == row[..i];
  }

  lemma LeavesNext(leafs: seq<seq<byte>>, i: nat)
    requires i < |leafs|
    ensures LeavesBytes(leafs[..i + 1]) == LeavesBytes(leafs[..i]) + LeafBytes(leafs[i])
  {
    assert leafs[..i + 1][..i] == leafs[..i];
  }

  /** What was written first stays in front. */
  lemma {:induction false} RowPrefix(row: seq<Node>, i: nat)
    requires i <= |row|
    ensures RowBytes(row[..i]) <= RowBytes(row)
  {
    if i < |row| {
      var m := |row| - 1;
      RowPrefix(row[..m], i);
      assert row[..m][..i] == row[..i];
    } else {
      assert row[..i] == row;
    }
  }

  lemma {:induction false} LeavesPrefix(leafs: seq<seq<byte>>, i: nat)
    requires i <= |leafs|
    ensures LeavesBytes(leafs[..i]) <= LeavesBytes(leafs)
  {
    if i < |leafs| {
      var m := |leafs| - 1;
      LeavesPrefix(leafs[..m], i);
      assert leafs[..m][..i] == leafs[..i];
    } else {
      assert leafs[..i] == leafs;
    }
  }

  /** dump */
  method Dump(row: seq<Node>, leafs: seq<seq<byte>>) returns (file: seq<byte>)
    requires |row| == |leafs|
    ensures file == RowBytes(row) + LeavesBytes(leafs)
  {
    hide RowBytes, LeavesBytes, NodeBytes, LeafBytes;
    file := [];
    NothingYet(row, leafs);
    for i := 0 to |row|
      invariant file == RowBytes(row[..i])
    {
      RowNext(row, i);
      file := file + NodeBytes(row[i]);
    }
    assert row[..|row|] == row;
    var top := file;
    file := [];
    for i := 0 to |leafs|
      invariant file == LeavesBytes(leafs[..i])
    {
      LeavesNext(leafs, i);
      file := file + LeafBytes(leafs[i]);
    }
    assert leafs[..|leafs|] == leafs;
    file := top + file;
  }

  lemma NothingYet(row: seq<Node>, leafs: seq<seq<byte>>)
    ensures RowBytes(row[..0]) == [] && LeavesBytes(leafs[..0]) == []
  {
  }

  /** The summary at a place in the file. */
  function ReadNode(file: seq<byte>, p: nat): Node
    requires p + 6 <= |file|
  {
    ValBound(file[p..p + 4]);
    ValBound(file[p + 4..p + 6]);
    Pow256Values();
    Node(Val(file[p..p + 4]), Val(file[p + 4..p + 6]), true)
  }

  lemma NodeReads(file: seq<byte>, row: seq<Node>, i: nat)
    requires i < |row| && RowBytes(row) <= file && row[i].updated
    ensures 6 * i + 6 <= |file| && ReadNode(file, 6 * i) == row[i]
  {
    hide *;
    RowStarts(row, i, file);
    NodeAfter(file, RowBytes(row[..i]), row[i]);
  }

  lemma RowStarts(row: seq<Node>, i: nat, file: seq<byte>)
    requires i < |row| && RowBytes(row) <= file
    ensures RowBytes(row[..i]) + NodeBytes(row[i]) <= file
  {
    hide *;
    RowPrefix(row, i + 1);
    RowNext(row, i);
    PrefixOfPrefix(RowBytes(row[..i + 1]), RowBytes(row), file);
  }

  lemma NodeAfter(file: seq<byte>, a: seq<byte>, n: Node)
    requires a + NodeBytes(n) <= file && n.updated
    ensures |a| + 6 <= |file| && ReadNode(file, |a|) == n
  {
    hide *;
    Behind(a, NodeBytes(n), file);
    NodeBack(file, |a|, n);
  }

  lemma PrefixOfPrefix(a: seq<byte>, b: seq<byte>, c: seq<byte>)
    requires a <= b <= c
    ensures a <= c
  {
  }

  lemma NodeBack(file: seq<byte>, p: nat, n: Node)
    requires p + 6 <= |file| && file[p..p + 6] == NodeBytes(n) && n.updated
    ensures ReadNode(file, p) == n
  {
    hide LE, Val;
    var b := file[p..p + 6];
    assert file[p..p + 4] == b[..4] && file[p + 4..p + 6] == b[4..];
    Pow256Values();
    ValLE(n.count, 4);
    ValLE(n.hash, 2);
  }

  lemma LeafReads(file: seq<byte>, base: nat, leafs: seq<seq<byte>>, i: nat)
    requires base <= |file| && i < |leafs| && file[base..] == LeavesBytes(leafs) && Short(leafs)
    ensures var p := base + |LeavesBytes(leafs[..i])|; var n := |leafs[i]|;
            && p + 4 + n <= |file| && Val(file[p..p + 4]) == n && file[p + 4..p + 4 + n] == leafs[i]
            && p + 4 + n == base + |LeavesBytes(leafs[..i + 1])|
  {
    hide LeavesBytes, LeafBytes, Val;
    LeavesPrefix(leafs, i + 1);
    LeavesNext(leafs, i);
    var q, n, t := |LeavesBytes(leafs[..i])|, |leafs[i]|, file[base..];
    Behind(LeavesBytes(leafs[..i]), LeafBytes(leafs[i]), t);
    assert file[base + q..base + q + 4 + n] == t[q..q + 4 + n];
    LeafBack(file, base + q, leafs[i]);
  }

  lemma LeafBack(file: seq<byte>, p: nat, leaf: seq<byte>)
    requires p + 4 + |leaf| <= |file| && file[p..p + 4 + |leaf|] == LeafBytes(leaf) && |leaf| < 0x1_0000_0000
    ensures Val(file[p..p + 4]) == |leaf| && file[p + 4..p + 4 + |leaf|] == leaf
  {
    hide LE, Val;
    var b := file[p..p + 4 + |leaf|];
    assert file[p..p + 4] == b[..4] && file[p + 4..p + 4 + |leaf|] == b[4..];
    Pow256Values();
    ValLE(|leaf|, 4);
  }

  /** The reading loops of load, for a file some tree dumped. */
  method Parse(file: seq<byte>, size: nat, ghost row: seq<Node>, ghost leafs: seq<seq<byte>>)
    returns (ok: bool, row': seq<Node>, leafs': seq<seq<byte>>)
    requires |row| == |leafs| == size && Short(leafs) && forall i :: 0 <= i < size ==> row[i].updated
    requires file == RowBytes(row) + LeavesBytes(leafs)
    ensures ok && row' == row && leafs' == leafs
  {
    hide RowBytes, LeavesBytes, LE, Val, ReadNode;
    row', leafs' := [], [];
    for i := 0 to size
      invariant row' == row[..i]
    {
      NodeReads(file, row, i);
      if 6 * i + 6 > |file| {
        return false, row', leafs';
      }
      row' := row' + [ReadNode(file, 6 * i)];
    }
    var p: nat := 6 * size;
    assert file[p..] == LeavesBytes(leafs);
    NothingYet(row, leafs);
    for i := 0 to size
      invariant leafs' == leafs[..i] && p == 6 * size + |LeavesBytes(leafs[..i])|
    {
      LeafReads(file, 6 * size, leafs, i);
      if p + 4 > |file| {
        return false, row', leafs';
      }
      var l := Val(file[p..p + 4]);
      p := p + 4;
      if p + l > |file| {
        return false, row', leafs';
      }
      leafs' := leafs' + [file[p..p + l]];
      p := p + l;
    }
    ok := true;
  }

  /** Loading what a tree of the same bucket dumped gives a tree with the same entries. */
  lemma LoadKeeps(sh: Shape, bp: seq<nat>, levels: seq<seq<Node>>, leafs: seq<seq<byte>>, cells: seq<seq<Cell>>,
                  blank: seq<seq<Node>>)
    requires TreeOk(sh, bp, levels, leafs, cells) && Sized(sh, blank) && Unsummed(sh, blank)
    ensures TreeOk(sh, bp, blank[sh.height - 1 := levels[sh.height - 1]], leafs, cells)
    ensures var row := levels[sh.height - 1]; forall i :: 0 <= i < |row| ==> row[i].updated
  {
    hide Pow16, Fresh;
    var h := sh.height - 1;
    var loaded := blank[h := levels[h]];
    forall l, o | 0 <= l < sh.height && 0 <= o < |loaded[l]|
      ensures NodeOk(sh, loaded, l, o)
    {
      if l == h {
        assert NodeOk(sh, levels, l, o);
      }
    }
    forall o | 0 <= o < |cells|
      ensures LeafOk(sh, bp, o, leafs[o], cells[o], loaded[h][o])
    {
      assert LeafOk(sh, bp, o, leafs[o], cells[o], levels[h][o]);
    }
  }

  /** dump and load: the new tree answers every hash as the old one did. */
  method Reload(tree: Tree) returns (tree': Tree)
    requires tree.Valid() && Short(tree.leafs)
    ensures fresh(tree') && tree'.Valid() && tree'.sh == tree.sh && tree'.bp == tree.bp
    ensures forall h: u64 :: tree'.Find(h) == tree.Find(h)
  {
    hide NodesOk, LeavesOk, RowBytes, LeavesBytes, FindIn, Short;
    Shaped(tree.sh, tree.bp, tree.levels, tree.leafs, tree.cells);
    var top := tree.sh.height - 1;
    var file := Dump(tree.levels[top], tree.leafs);
    tree' := new Tree(tree.sh, tree.bp);
    LoadKeeps(tree.sh, tree.bp, tree.levels, tree.leafs, tree.cells, tree'.levels);
    var ok, row, leafs := Parse(file, |tree.leafs|, tree.levels[top], tree.leafs);
    tree'.levels := tree'.levels[top := row];
    tree'.leafs := leafs;
    tree'.cells := tree.cells;
  }
}
