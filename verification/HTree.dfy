/**
  The hash tree as the store uses it: set, remove and get by full key hash, and
  lazy recomputation of node summaries.
*/
module HTree {
  import opened Bytes
  import opened Nibbles
  import opened Leaf
  import opened Merkle
  import opened TreeSpec
  import opened TreeListing

  const THRESHOLD_LIST_KEY := 256

  // ----- the whole tree, over values

  ghost predicate TreeOk(sh: Shape, bp: seq<nat>, levels: seq<seq<Node>>, leafs: seq<seq<byte>>,
                         cells: seq<seq<Cell>>) {
    && sh.Legal() && IsPath(bp) && |bp| == sh.depth
    && Sized(sh, levels) && NodesOk(sh, levels) && LeavesOk(sh, bp, levels, leafs, cells)
  }

  /** What leaf contents hold for a hash of the bucket. */
  ghost function FindIn(sh: Shape, cells: seq<seq<Cell>>, h: u64): Option<Item>
    requires sh.Legal()
  {
    var q := Idx(sh.depth, h, sh.height - 1);
    if q < |cells| && h in MapOf(cells[q]) then Some(MapOf(cells[q])[h]) else None
  }

  /** The leaf a hash of the bucket belongs to. */
  lemma Home(sh: Shape, bp: seq<nat>, levels: seq<seq<Node>>, leafs: seq<seq<byte>>, cells: seq<seq<Cell>>, h: u64)
    requires TreeOk(sh, bp, levels, leafs, cells) && HasPrefix(h, bp)
    ensures var q := Idx(sh.depth, h, sh.height - 1); var p := bp + Digits(q, sh.height - 1);
            && q < |cells| == |leafs| == |levels[sh.height - 1]|
            && IsPath(p) && |p| == sh.Fixed() && HasPrefix(h, p)
            && LeafOk(sh, bp, q, leafs[q], cells[q], levels[sh.height - 1][q])
            && AllAligned(cells[q])
  {
    hide NodesOk, Idx, HasPrefix;
    var q := Idx(sh.depth, h, sh.height - 1);
    IdxBound(sh.depth, h, sh.height - 1);
    IdxIsPath(bp, h, q, sh.height - 1);
    assert LeafOk(sh, bp, q, leafs[q], cells[q], levels[sh.height - 1][q]);
  }

  /** One leaf and its summary replaced, the nodes above it out of date. */
  lemma LeafReplaced(sh: Shape, bp: seq<nat>, levels: seq<seq<Node>>, leafs: seq<seq<byte>>, cells: seq<seq<Cell>>,
                     mid: seq<seq<Node>>, q: nat, leaf: seq<byte>, cs: seq<Cell>, node: Node)
    requires TreeOk(sh, bp, levels, leafs, cells) && q < |cells|
    requires Invalidated(sh, levels, mid, q) && LeafOk(sh, bp, q, leaf, cs, node)
    ensures TreeOk(sh, bp, mid[sh.height - 1 := mid[sh.height - 1][q := node]], leafs[q := leaf], cells[q := cs])
  {
    var h := sh.height - 1;
    var levels' := mid[h := mid[h][q := node]];
    SummaryReplaced(sh, levels, mid, q, node);
    InvalidateKeeps(sh, levels, levels', q);
    hide NodesOk, LeafOk, Pow16, Invalidated;
    forall o | 0 <= o < |cells|
      ensures LeafOk(sh, bp, o, leafs[q := leaf][o], cells[q := cs][o], levels'[h][o])
    {
      if o != q {
        assert LeafOk(sh, bp, o, leafs[o], cells[o], levels[h][o]);
      }
    }
  }

  lemma SummaryReplaced(sh: Shape, levels: seq<seq<Node>>, mid: seq<seq<Node>>, q: nat, node: Node)
    requires sh.Legal() && Sized(sh, levels) && q < |levels[sh.height - 1]|
    requires Invalidated(sh, levels, mid, q)
    ensures var levels' := mid[sh.height - 1 := mid[sh.height - 1][q := node]];
            && Sized(sh, levels') && Invalidated(sh, levels, levels', q)
            && levels'[sh.height - 1] == levels[sh.height - 1][q := node]
  {
    hide Pow16;
    assert Above(q, 0) == q;
    hide Above;
    var row, row' := levels[sh.height - 1], mid[sh.height - 1];
    assert forall o :: 0 <= o < |row| && o != q ==> row'[o] == row[o];
  }

  /** Replacing one leaf's cells by those of an updated map. */
  lemma FoundAfter(sh: Shape, cells: seq<seq<Cell>>, q: nat, cs: seq<Cell>, h: u64, k: u64)
    requires sh.Legal() && q < |cells| && q == Idx(sh.depth, h, sh.height - 1)
    requires forall x: u64 :: x != h ==> (x in MapOf(cs) <==> x in MapOf(cells[q]))
    requires forall x: u64 :: x != h && x in MapOf(cs) ==> MapOf(cs)[x] == MapOf(cells[q])[x]
    ensures FindIn(sh, cells[q := cs], h) == if h in MapOf(cs) then Some(MapOf(cs)[h]) else None
    ensures k != h ==> FindIn(sh, cells[q := cs], k) == FindIn(sh, cells, k)
  {
    hide MapOf, Idx;
  }

  lemma Shaped(sh: Shape, bp: seq<nat>, levels: seq<seq<Node>>, leafs: seq<seq<byte>>, cells: seq<seq<Cell>>)
    requires TreeOk(sh, bp, levels, leafs, cells)
    ensures sh.Legal() && IsPath(bp) && |bp| == sh.depth && |levels| == sh.height
    ensures |levels[sh.height - 1]| == |leafs| == |cells| == Pow16(sh.height - 1)
    ensures Sized(sh, levels) && NodesOk(sh, levels)
  {
  }

  // ----- marking the way down

  /** The nodes above leaf q are out of date down to a level; all else is as before. */
  ghost predicate Cleared(sh: Shape, levels: seq<seq<Node>>, levels': seq<seq<Node>>, q: nat, upto: nat)
    requires sh.height >= 1
  {
    && |levels| == |levels'| == sh.height
    && (forall l :: 0 <= l < sh.height ==> |levels'[l]| == |levels[l]|)
    && forall l, o :: 0 <= l < sh.height && 0 <= o < |levels[l]| ==>
         if Above(q, sh.height - 1 - l) == o && l < upto then !levels'[l][o].updated
         else levels'[l][o] == levels[l][o]
  }

  /** One node marked as out of date. */
  function Mark(levels: seq<seq<Node>>, l: nat, o: nat): seq<seq<Node>>
    requires l < |levels| && o < |levels[l]|
  {
    levels[l := levels[l][o := levels[l][o].(updated := false)]]
  }

  lemma ClearOne(sh: Shape, levels: seq<seq<Node>>, mid: seq<seq<Node>>, q: nat, l: nat, o: nat)
    requires sh.height >= 1 && Cleared(sh, levels, mid, q, l) && l < sh.height
    requires o < |levels[l]| && o == Above(q, sh.height - 1 - l)
    ensures |mid| == sh.height && o < |mid[l]|
    ensures Cleared(sh, levels, Mark(mid, l, o), q, l + 1)
  {
    hide Above;
  }

  lemma ClearedAll(sh: Shape, levels: seq<seq<Node>>, levels': seq<seq<Node>>, q: nat)
    requires sh.Legal() && Sized(sh, levels) && Cleared(sh, levels, levels', q, sh.height - 1)
    ensures Invalidated(sh, levels, levels', q) && |levels'| == |levels| == sh.height
    ensures levels'[sh.height - 1] == levels[sh.height - 1]
  {
    hide Above, Pow16;
  }

  lemma PathNode(sh: Shape, levels: seq<seq<Node>>, h: u64, level: nat)
    requires sh.Legal() && Sized(sh, levels) && level < sh.height
    ensures Idx(sh.depth, h, level) < |levels[level]|
    ensures Above(Idx(sh.depth, h, sh.height - 1), sh.height - 1 - level) == Idx(sh.depth, h, level)
  {
    hide Idx, Above;
    IdxBound(sh.depth, h, level);
    IdxAbove(sh.depth, h, sh.height - 1, sh.height - 1 - level);
  }

  // ----- a new tree

  function Zeros(n: nat): (s: seq<Node>)
    ensures |s| == n && forall o :: 0 <= o < n ==> s[o] == ZERO
  {
    seq(n, _ => ZERO)
  }

  ghost predicate Blank(levels: seq<seq<Node>>) {
    forall l :: 0 <= l < |levels| ==> |levels[l]| == Pow16(l) && forall o :: 0 <= o < |levels[l]| ==>
      levels[l][o] == ZERO
  }

  /** No inner node claims to be up to date. */
  ghost predicate Unsummed(sh: Shape, levels: seq<seq<Node>>) {
    |levels| == sh.height && forall l, o :: 0 <= l < sh.height - 1 && 0 <= o < |levels[l]| ==> !levels[l][o].updated
  }

  lemma NewTree(sh: Shape, bp: seq<nat>, blank: seq<seq<Node>>, row: seq<Node>, leafs: seq<seq<byte>>,
                cells: seq<seq<Cell>>)
    requires sh.Legal() && IsPath(bp) && |bp| == sh.depth && |blank| == sh.height && Blank(blank)
    requires |row| == |leafs| == |cells| == Pow16(sh.height - 1)
    requires forall o :: 0 <= o < |row| ==> row[o] == Node(0, 0, true) && leafs[o] == [] && cells[o] == []
    ensures TreeOk(sh, bp, blank[sh.height - 1 := row], leafs, cells)
    ensures forall h: u64 :: FindIn(sh, cells, h) == None
    ensures Unsummed(sh, blank[sh.height - 1 := row])
  {
    hide Pow16, Idx, HasPrefix, Digits, IsPath;
    var levels := blank[sh.height - 1 := row];
    forall l, o | 0 <= l < sh.height && 0 <= o < |levels[l]|
      ensures NodeOk(sh, levels, l, o)
    {
    }
    forall o | 0 <= o < |cells|
      ensures LeafOk(sh, bp, o, leafs[o], cells[o], levels[sh.height - 1][o])
    {
    }
  }

  // ----- recomputation

  /** Up to a child, the first n children of a node are up to date. */
  ghost predicate SomeUp(levels: seq<seq<Node>>, l: nat, from: nat, n: nat) {
    forall c :: from <= c < from + n ==> Up(levels, l, c)
  }

  lemma UpNext(levels: seq<seq<Node>>, levels': seq<seq<Node>>, l: nat, from: nat, n: nat)
    requires SomeUp(levels, l, from, n) && Refreshed(levels, levels') && Up(levels', l, from + n)
    ensures SomeUp(levels', l, from, n + 1)
  {
    forall c | from <= c < from + n + 1
      ensures Up(levels', l, c)
    {
      assert c < from + n ==> Up(levels, l, c);
    }
  }

  lemma RefreshedTwice(a: seq<seq<Node>>, b: seq<seq<Node>>, c: seq<seq<Node>>)
    requires Refreshed(a, b) && Refreshed(b, c)
    ensures Refreshed(a, c)
  {
  }

  /** The children's summaries as read one by one. */
  lemma ReadChild(sh: Shape, levels: seq<seq<Node>>, level: nat, offset: nat, i: nat)
    requires sh.Legal() && Sized(sh, levels) && NodesOk(sh, levels) && level < sh.height - 1 && i < 16
    requires Up(levels, level + 1, 16 * offset + i)
    ensures levels[level + 1][16 * offset + i] == Children(levels[sh.height - 1], sh.height - 1 - level, offset)[i]
  {
    hide NodesOk, Pow16;
    ChildFresh(sh, levels, level + 1, 16 * offset + i);
  }

  lemma SumNext(ns: seq<Node>, i: nat)
    requires i < |ns|
    ensures SumCounts(ns[..i + 1]) == SumCounts(ns[..i]) + ns[i].count
  {
    assert ns[..i + 1][..i] == ns[..i];
  }

  lemma FoldNext(ns: seq<Node>, big: bool, i: nat)
    requires i < |ns|
    ensures FoldHash(ns[..i + 1], big) == ((if big then FoldHash(ns[..i], big) * 97 % M16 else FoldHash(ns[..i],
            big)) + ns[i].hash) % M16
  {
    assert ns[..i + 1][..i] == ns[..i];
  }

  /** The second loop of updateNodes. */
  method MixHashes(count: u32, hashs: seq<u16>, ghost ns: seq<Node>) returns (hash: u16)
    requires |hashs| == |ns| == 16 && forall i :: 0 <= i < 16 ==> hashs[i] == ns[i].hash
    ensures hash == FoldHash(ns, count > THRESHOLD_BIG_HASH)
  {
    ghost var big := count > THRESHOLD_BIG_HASH;
    assert FoldHash(ns[..0], big) == 0;
    hide FoldHash;
    hash := 0;
    for i := 0 to 16
      invariant hash == FoldHash(ns[..i], big)
    {
      FoldNext(ns, big, i);
      if count > THRESHOLD_BIG_HASH {
        hash := hash * 97 % M16;
      }
      hash := (hash + hashs[i]) % M16;
    }
    assert ns[..16] == ns;
  }

  class Tree {
    const sh: Shape
    const bp: seq<nat>  // the digits that route to this bucket
    var levels: seq<seq<Node>>
    var leafs: seq<seq<byte>>
    ghost var cells: seq<seq<Cell>>  // what the leaves hold

    ghost predicate Valid()
      reads this
    {
      TreeOk(sh, bp, levels, leafs, cells)
    }

    /** A hash that belongs to this bucket. */
    ghost predicate Mine(h: u64) {
      HasPrefix(h, bp)
    }

    /** What the tree holds for a hash. */
    ghost function Find(h: u64): Option<Item>
      requires sh.Legal()
      reads this
    {
      FindIn(sh, cells, h)
    }

    /** newHTree */
    constructor (sh: Shape, bp: seq<nat>)
      requires sh.Legal() && IsPath(bp) && |bp| == sh.depth
      ensures Valid() && this.sh == sh && this.bp == bp
      ensures forall h: u64 :: Find(h) == None
      ensures Unsummed(sh, levels)
    {
      hide TreeOk, FindIn;
      this.sh := sh;
      this.bp := bp;
      var lv: seq<seq<Node>> := [];
      var size := 1;
      for i := 0 to sh.height
        invariant |lv| == i && size == Pow16(i) && Blank(lv)
      {
        lv := lv + [Zeros(size)];
        size := size * 16;
      }
      size := size / 16;
      var row := seq(size, _ => Node(0, 0, true));
      levels := lv[sh.height - 1 := row];
      leafs := seq(size, _ => []);
      cells := seq(size, _ => []);
      new;
      NewTree(sh, bp, lv, row, leafs, cells);
    }

    /** getLeaf */
    method GetLeaf(h: u64) returns (offset: nat)
      requires Valid()
      ensures offset == Idx(sh.depth, h, sh.height - 1)
    {
      hide NodesOk, LeavesOk;
      offset := 0;
      for level := 1 to sh.height
        invariant offset == Idx(sh.depth, h, level - 1)
      {
        offset := offset * 16 + Nibble(h, sh.depth + level - 1);
      }
    }

    /** getLeafAndInvalidNodes: on the way down to the leaf every inner node is
        marked as out of date. */
    method GetLeafAndInvalidNodes(h: u64) returns (offset: nat)
      requires Valid()
      modifies this`levels
      ensures offset == Idx(sh.depth, h, sh.height - 1) && Invalidated(sh, old(levels), levels, offset)
      ensures |levels| == sh.height && levels[sh.height - 1] == old(levels[sh.height - 1])
    {
      hide TreeOk, NodesOk, LeavesOk, Pow16, Cleared, Invalidated, Idx, Nibble, Sized, IsPath, Mark;
      Shaped(sh, bp, levels, leafs, cells);
      ghost var was, q := levels, Idx(sh.depth, h, sh.height - 1);
      offset := 0;
      NothingCleared(sh, was, q);
      Descend(sh, was, levels, h, 0);
      levels := Mark(levels, 0, 0);
      for level := 1 to sh.height - 1
        invariant offset == Idx(sh.depth, h, level - 1)
        invariant Cleared(sh, was, levels, q, level)
      {
        offset := offset * 16 + Nibble(h, sh.depth + level - 1);
        Descend(sh, was, levels, h, level);
        levels := Mark(levels, level, offset);
      }
      offset := offset * 16 + Nibble(h, sh.depth + sh.height - 2);
      IdxNext(sh.depth, h, sh.height - 1);
      ClearedAll(sh, was, levels, q);
    }

    /** set: afterwards the tree maps h to the item and is otherwise the same map. */
    method Set(h: u64, item: Item, junk: seq<byte>)
      requires Valid() && Mine(h) && Aligned(item) && |junk| == sh.KHashLen() + ITEM_SIZE
      modifies this
      ensures Valid() && Find(h) == Some(item)
      ensures forall k: u64 :: k != h ==> Find(k) == old(Find(k))
    {
      hide TreeOk, Idx, Pack, HasPrefix, NodesOk, Live, HashSum, LiveOf, HashOf, Digits, MapOf, Sized, FindIn, Pow16,
        Invalidated, CellsOk, IsPath, SetCells, RemoveCells, AllAligned;
      Shaped(sh, bp, levels, leafs, cells);
      ghost var levels0, leafs0, cells0 := levels, leafs, cells;
      var q := GetLeafAndInvalidNodes(h);
      ghost var mid := levels;
      Home(sh, bp, levels0, leafs0, cells0, h);
      var top := sh.height - 1;
      var leaf, oldm, exist := Leaf.Set(leafs[q], sh.KHashLen(), Cell(h, item), junk, cells[q]);
      var node := SetSummary(levels[top][q], h, item, exist, oldm);
      ghost var cs := SetCells(sh.KHashLen(), cells[q], Cell(h, item));
      levels := levels[top := levels[top][q := node]];
      leafs := leafs[q := leaf];
      cells := cells[q := cs];
      SetAll(sh, bp, levels0, leafs0, cells0, mid, q, h, item, leaf, node);
    }

    /** remove: if the request applies, the tree forgets h. */
    method Remove(h: u64, anyPos: bool, offset: u32)
      requires Valid() && Mine(h)
      modifies this
      ensures Valid()
      ensures Find(h) == match old(Find(h)) case Some(it) => if Applies(it, anyPos,
              offset) then None else Some(it) case None => None
      ensures forall k: u64 :: k != h ==> Find(k) == old(Find(k))
    {
      hide TreeOk, Idx, Pack, HasPrefix, NodesOk, Live, HashSum, LiveOf, HashOf, Digits, MapOf, Sized, FindIn, Pow16,
        Invalidated, CellsOk, IsPath, SetCells, RemoveCells, AllAligned;
      Shaped(sh, bp, levels, leafs, cells);
      ghost var levels0, leafs0, cells0 := levels, leafs, cells;
      var q := GetLeafAndInvalidNodes(h);
      ghost var mid := levels;
      Home(sh, bp, levels0, leafs0, cells0, h);
      var top := sh.height - 1;
      var leaf, oldm, removed := Leaf.Remove(leafs[q], sh.KHashLen(), h, anyPos, offset, cells[q]);
      var node := RemoveSummary(levels[top][q], h, removed, oldm);
      ghost var cs := RemoveCells(sh.KHashLen(), cells[q], h, anyPos, offset);
      levels := levels[top := levels[top][q := node]];
      leafs := leafs[q := leaf];
      cells := cells[q := cs];
      RemoveAll(sh, bp, levels0, leafs0, cells0, mid, q, h, anyPos, offset, leaf, node);
    }

    method Get(h: u64) returns (item: Item, found: bool)
      requires Valid() && Mine(h)
      ensures if found then Find(h) == Some(item) else Find(h) == None
    {
      hide Pack, NodesOk, HasPrefix, MapOf, Match, Digits, Idx, Sized, LE, CellBytes, Pow16;
      Home(sh, bp, levels, leafs, cells, h);
      var q := GetLeaf(h);
      item, found := Leaf.Get(leafs[q], sh.KHashLen(), h, cells[q]);
      MatchIsMap(sh, bp + Digits(q, sh.height - 1), cells[q], h);
    }

    /** updateNodes: brings a node and all below it up to date. */
    method UpdateNodes(level: nat, offset: nat) returns (node: Node)
      requires Valid() && level < sh.height && offset < Pow16(level)
      modifies this`levels
      ensures Valid() && Refreshed(old(levels), levels)
      ensures levels[sh.height - 1] == old(levels[sh.height - 1])
      ensures Up(levels, level, offset) && node == levels[level][offset]
      decreases sh.height - level
    {
      hide Pow16, Fresh, FoldHash, SumCounts, NodesOk, LeavesOk, Refreshed, SomeUp;
      ghost var was, top := levels, sh.height - 1;
      StaysRefreshed(was);
      node := levels[level][offset];
      if !node.updated {
        BelowNode(sh, bp, levels, leafs, cells, level, offset);
        ghost var row := levels[top];
        ghost var ns := Children(row, top - level, offset);
        var count, hashs: seq<u16> := 0, [];
        NoChildren(levels, level + 1, 16 * offset, ns);
        for i := 0 to 16
          invariant Valid() && Refreshed(was, levels) && levels[top] == row
          invariant SomeUp(levels, level + 1, 16 * offset, i)
          invariant count == SumCounts(ns[..i]) % M32
          invariant |hashs| == i && forall k :: 0 <= k < i ==> hashs[k] == ns[k].hash
        {
          ghost var before := levels;
          var c := UpdateNodes(level + 1, offset * 16 + i);
          RefreshedTwice(was, before, levels);
          UpNext(before, levels, level + 1, 16 * offset, i);
          ReadChild(sh, levels, level, offset, i);
          SumNext(ns, i);
          WrapSum(SumCounts(ns[..i]), c.count, M32);
          count := (count + c.count) % M32;
          hashs := hashs + [c.hash];
        }
        assert ns[..16] == ns;
        var hash := MixHashes(count, hashs, ns);
        node := Node(count, hash, true);
        NodeStored(sh, bp, was, levels, leafs, cells, level, offset, node);
        levels := levels[level := levels[level][offset := node]];
      }
    }

    /** collectItems at a leaf. */
    method CollectLeaf(offset: nat, path: seq<nat>, items: seq<Cell>, keyHash: nat, shift: nat, ghost p: seq<nat>)
      returns (items': seq<Cell>)
      requires Valid() && offset < Pow16(sh.height - 1) && path == bp + Digits(offset, sh.height - 1)
      requires IsPath(p) && shift == Pow16(16 - |p|) && keyHash == PathVal(p) * shift
      ensures items' == items + Filtered(Sub(cells, 0, offset), p)
    {
      hide TreeOk, Pow16, Filtered, PathVal, IsPath, Digits, Pack, HasPrefix, AllAligned;
      Shaped(sh, bp, levels, leafs, cells);
      LeafCells(sh, bp, levels, leafs, cells, offset);
      var all := Iter(leafs[offset], sh, path, cells[offset]);
      items' := FilterItems(all, items, keyHash, shift, p);
    }

    /** collectItems: appends the cells below a node that start with the digits p,
        tested by masking. */
    method CollectItems(level: nat, offset: nat, path: seq<nat>, items: seq<Cell>, keyHash: nat, shift: nat,
                        ghost p: seq<nat>)
      returns (items': seq<Cell>)
      requires Valid() && level < sh.height && offset < Pow16(level) && path == bp + Digits(offset, level)
      requires IsPath(p) && shift == Pow16(16 - |p|) && keyHash == PathVal(p) * shift
      ensures items' == items + Filtered(Sub(cells, sh.height - 1 - level, offset), p)
      decreases sh.height - level
    {
      hide TreeOk, Pow16, Filtered, PathVal, IsPath, Digits, Sub, SubPart, Pack, HasPrefix, AllAligned;
      Shaped(sh, bp, levels, leafs, cells);
      if level >= sh.height - 1 {
        items' := CollectLeaf(offset, path, items, keyHash, shift, p);
      } else {
        items' := items;
        ghost var d := sh.height - 1 - level;
        NoneBelow(cells, d, offset, p, items);
        for i := 0 to 16
          invariant items' == items + Filtered(SubPart(cells, d, offset, i), p)
        {
          ChildPath(bp, offset, level, i);
          items' := CollectItems(level + 1, offset * 16 + i, path + [i], items', keyHash, shift, p);
          MoreBelow(cells, d, offset, i, p, items);
        }
      }
    }

    /** getNode: as far down the digits p as there are nodes. */
    method GetNode(p: seq<nat>) returns (level: nat, offset: nat)
      requires sh.Legal() && sh.depth <= |p|
      ensures level == DownTo(sh, p) && offset == PathVal(p[sh.depth..sh.depth + level])
    {
      offset := 0;
      var l := sh.depth + sh.height - 1;
      if |p| < l {
        l := |p|;
      }
      level := l - sh.depth;
      for h := sh.depth to l
        invariant offset == PathVal(p[sh.depth..h])
      {
        assert p[sh.depth..h + 1][..h - sh.depth] == p[sh.depth..h];
        offset := offset * 16 + p[h];
      }
    }

    /** listDir: either all cells whose hash starts with the digits p, each once, or
        the up-to-date summaries of the sixteen nodes below. */
    method ListDir(p: seq<nat>) returns (r: Listing)
      requires Valid() && IsPath(p) && sh.depth <= |p| && p[..sh.depth] == bp
      modifies this`levels
      ensures Valid()
      ensures r.Items? ==> Exactly(sh, cells, p, r.items)
      ensures r.Nodes? <==> |p| < sh.Fixed() && Summary(sh, cells, p).count >= THRESHOLD_LIST_KEY
      ensures r.Nodes? ==> |r.nodes| == 16 && forall i: nat :: i < 16 ==> r.nodes[i] == Summary(sh, cells, p + [i])
    {
      hide TreeOk, Pow16, PathVal, Digits, Sub, Filtered, HasPrefix, FindIn, Summary, Refreshed, Exactly, Placed,
        EachDistinct, AllIn;
      Shaped(sh, bp, levels, leafs, cells);
      NodeAt(sh, bp, p);
      var keyHash := SetKeyHashByPath(p);
      var level, offset := 0, 0;
      if |p| == sh.depth {
        NoPath();
      } else {
        level, offset := GetNode(p);
      }
      var node := UpdateNodes(level, offset);
      Shaped(sh, bp, levels, leafs, cells);
      NodesBelow(sh, bp, levels, leafs, cells, p);
      if level >= sh.height - 1 || node.count < THRESHOLD_LIST_KEY {
        var items := CollectItems(level, offset, p[..sh.depth + level], [], keyHash, Pow16(16 - |p|), p);
        assert items == Filtered(Sub(cells, sh.height - 1 - level, offset), p);
        r := Items(items);
        AllPlaced(sh, bp, levels, leafs, cells);
        ItemsExact(sh, cells, p);
      } else {
        r := Nodes(levels[level + 1][16 * offset..16 * offset + 16]);
      }
    }
  }

  /** The level of the deepest node on the way along p. */
  function DownTo(sh: Shape, p: seq<nat>): nat
    requires sh.Legal() && sh.depth <= |p|
  {
    if |p| < sh.Fixed() then |p| - sh.depth else sh.height - 1
  }

  lemma NodeAt(sh: Shape, bp: seq<nat>, p: seq<nat>)
    requires sh.Legal() && IsPath(p) && sh.depth <= |p| && p[..sh.depth] == bp
    ensures var level := DownTo(sh, p); var offset := PathVal(p[sh.depth..sh.depth + level]);
            offset < Pow16(level) && p[..sh.depth + level] == bp + Digits(offset, level)
  {
    var level := DownTo(sh, p);
    hide Digits, PathVal, Pow16;
    DigitsVal(p[sh.depth..sh.depth + level]);
  }

  lemma RowIs(sh: Shape, bp: seq<nat>, levels: seq<seq<Node>>, leafs: seq<seq<byte>>, cells: seq<seq<Cell>>)
    requires TreeOk(sh, bp, levels, leafs, cells)
    ensures levels[sh.height - 1] == Row(cells)
  {
    hide NodesOk, LeafNode, Pow16;
    var row := levels[sh.height - 1];
    assert forall q :: 0 <= q < |row| ==> LeafOk(sh, bp, q, leafs[q], cells[q], row[q]);
  }

  /** An updated node on the way along p, and the nodes below it. */
  lemma NodesBelow(sh: Shape, bp: seq<nat>, levels: seq<seq<Node>>, leafs: seq<seq<byte>>, cells: seq<seq<Cell>>,
                   p: seq<nat>)
    requires TreeOk(sh, bp, levels, leafs, cells) && IsPath(p) && sh.depth <= |p| && p[..sh.depth] == bp
    requires Up(levels, DownTo(sh, p), PathVal(p[sh.depth..sh.depth + DownTo(sh, p)]))
    ensures |p| < sh.Fixed() ==>
              var level, o := |p| - sh.depth, PathVal(p[sh.depth..]);
              && p[sh.depth..sh.depth + level] == p[sh.depth..]
              && o < |levels[level]| && levels[level][o] == Summary(sh, cells, p)
              && 16 * o + 16 <= |levels[level + 1]|
              && forall i: nat :: i < 16 ==> levels[level + 1][16 * o..16 * o + 16][i] == Summary(sh, cells, p + [i])
  {
    hide TreeOk, NodesOk, Fresh, Row, LeavesOk, Pow16, PathVal, IsPath;
    Shaped(sh, bp, levels, leafs, cells);
    if |p| < sh.Fixed() {
      RowIs(sh, bp, levels, leafs, cells);
      var level, o := |p| - sh.depth, PathVal(p[sh.depth..]);
      assert p[sh.depth..sh.depth + level] == p[sh.depth..];
      ChildrenFresh(sh, levels, level, o);
      forall i: nat | i < 16
        ensures levels[level + 1][16 * o..16 * o + 16][i] == Summary(sh, cells, p + [i])
      {
        assert (p + [i])[sh.depth..] == p[sh.depth..] + [i];
        PathValSnoc(p[sh.depth..], i);
      }
    }
  }

  lemma PathValSnoc(p: seq<nat>, i: nat)
    ensures PathVal(p + [i]) == 16 * PathVal(p) + i
  {
    assert (p + [i])[..|p|] == p;
  }

  lemma ChildrenFresh(sh: Shape, levels: seq<seq<Node>>, level: nat, o: nat)
    requires sh.Legal() && Sized(sh, levels) && NodesOk(sh, levels) && level < sh.height - 1 && Up(levels, level, o)
    ensures levels[level][o] == Fresh(levels[sh.height - 1], sh.height - 1 - level, o)
    ensures 16 * o + 16 <= |levels[level + 1]|
    ensures var row, d, below := levels[sh.height - 1], sh.height - 2 - level, levels[level + 1];
            forall i :: 16 * o <= i < 16 * o + 16 ==> below[i] == Fresh(row, d, i)
  {
    hide Fresh, Pow16;
    assert NodeOk(sh, levels, level, o);
    assert Up(levels, level + 1, 16 * o + 15);
    var row, d, below := levels[sh.height - 1], sh.height - 2 - level, levels[level + 1];
    forall i | 16 * o <= i < 16 * o + 16
      ensures below[i] == Fresh(row, d, i)
    {
      assert Up(levels, level + 1, i);
      assert NodeOk(sh, levels, level + 1, i);
    }
  }

  /** After a node is up to date, so is its whole subtree. */
  lemma {:induction false} SubtreeFresh(sh: Shape, levels: seq<seq<Node>>, level: nat, o: nat, k: nat, o': nat)
    requires sh.Legal() && Sized(sh, levels) && NodesOk(sh, levels) && Up(levels, level, o)
    requires level + k < sh.height && Above(o', k) == o
    ensures Up(levels, level + k, o') && levels[level + k][o'] ==
            Fresh(levels[sh.height - 1], sh.height - 1 - level - k, o')
    decreases k
  {
    hide Fresh, Pow16;
    if k == 0 {
      assert NodeOk(sh, levels, level, o);
    } else {
      AboveNext(o', k);
      assert NodeOk(sh, levels, level, o);
      assert Up(levels, level + 1, Above(o', k - 1));
      SubtreeFresh(sh, levels, level + 1, Above(o', k - 1), k - 1, o');
    }
  }

  lemma AboveNext(q: nat, k: nat)
    requires k > 0
    ensures 16 * Above(q, k) <= Above(q, k - 1) < 16 * Above(q, k) + 16
  {
  }

  ghost predicate AllIn(bp: seq<nat>, cells: seq<seq<Cell>>) {
    forall q, c :: 0 <= q < |cells| && c in cells[q] ==> HasPrefix(c.hash, bp)
  }

  /** Every cell is in the leaf its hash leads to. */
  lemma AllPlaced(sh: Shape, bp: seq<nat>, levels: seq<seq<Node>>, leafs: seq<seq<byte>>, cells: seq<seq<Cell>>)
    requires TreeOk(sh, bp, levels, leafs, cells)
    ensures Placed(sh.depth, sh.height - 1, cells) && EachDistinct(cells)
    ensures AllIn(bp, cells)
  {
    hide NodesOk, HasPrefix, Idx, Pack, LeafNode, Distinct, AllAligned;
    forall q | 0 <= q < |cells|
      ensures LeafOk(sh, bp, q, leafs[q], cells[q], levels[sh.height - 1][q])
    {
    }
    forall q, c | 0 <= q < |cells| && c in cells[q]
      ensures Idx(sh.depth, c.hash, sh.height - 1) == q && HasPrefix(c.hash, bp)
    {
      IdxIsPath(bp, c.hash, q, sh.height - 1);
    }
  }

  lemma CellFound(sh: Shape, cells: seq<seq<Cell>>, c: Cell)
    requires sh.Legal() && EachDistinct(cells)
    ensures At(sh.depth, sh.height - 1, cells, c) <==> FindIn(sh, cells, c.hash) == Some(c.item)
  {
    hide Idx, MapOf;
    var q := Idx(sh.depth, c.hash, sh.height - 1);
    if q < |cells| {
      var s := cells[q];
      MapHas(s, c.hash);
      if i :| 0 <= i < |s| && s[i].hash == c.hash {
        MapAt(s, i);
        assert c in s <==> s[i].item == c.item by {
          hide FindIn;
          assert s[i].item == c.item ==> s[i] == c;
        }
      }
    }
  }

  /** The items are all entries whose hash starts with p, each once. */
  ghost predicate Exactly(sh: Shape, cells: seq<seq<Cell>>, p: seq<nat>, items: seq<Cell>)
    requires sh.Legal()
  {
    && Distinct(items)
    && forall c :: c in items <==> HasPrefix(c.hash, p) && FindIn(sh, cells, c.hash) == Some(c.item)
  }

  /** The cells below the node on the way along p that start with p are all the
      cells that do, each once. */
  lemma ItemsExact(sh: Shape, cells: seq<seq<Cell>>, p: seq<nat>)
    requires sh.Legal() && IsPath(p) && sh.depth <= |p|
    requires Placed(sh.depth, sh.height - 1, cells) && EachDistinct(cells)
    ensures var level := DownTo(sh, p);
            var items := Filtered(Sub(cells, sh.height - 1 - level, PathVal(p[sh.depth..sh.depth + level])), p);
            Exactly(sh, cells, p, items)
  {
    hide Filtered, Sub, PathVal, HasPrefix, Distinct, FindIn, Placed, EachDistinct, IsPath;
    var level := DownTo(sh, p);
    var o, d := PathVal(p[sh.depth..sh.depth + level]), sh.height - 1 - level;
    var s := Sub(cells, d, o);
    SubDistinct(sh.depth, sh.height - 1, cells, d, o);
    FilteredDistinct(s, p);
    forall c: Cell
      ensures c in Filtered(s, p) <==> HasPrefix(c.hash, p) && FindIn(sh, cells, c.hash) == Some(c.item)
    {
      ItemExact(sh, p[..sh.depth], cells, p, c);
    }
  }

  lemma ItemExact(sh: Shape, bp: seq<nat>, cells: seq<seq<Cell>>, p: seq<nat>, c: Cell)
    requires sh.Legal() && IsPath(p) && sh.depth <= |p| && p[..sh.depth] == bp
    requires Placed(sh.depth, sh.height - 1, cells) && EachDistinct(cells)
    ensures var level := DownTo(sh, p);
            c in Filtered(Sub(cells, sh.height - 1 - level, PathVal(p[sh.depth..sh.depth + level])), p)
            <==> HasPrefix(c.hash, p) && FindIn(sh, cells, c.hash) == Some(c.item)
  {
    hide Filtered, Sub, PathVal, HasPrefix, FindIn, Placed, EachDistinct, IsPath, Idx, At, Pow16, Digits;
    var level := DownTo(sh, p);
    var o, d := PathVal(p[sh.depth..sh.depth + level]), sh.height - 1 - level;
    NodeAt(sh, bp, p);
    FilteredIn(Sub(cells, d, o), p, c);
    SubIn(sh.depth, sh.height - 1, cells, d, o, c);
    CellFound(sh, cells, c);
    IdxIsPath(bp, c.hash, o, level);
    Shorter(c.hash, p, sh.depth + level);
  }

  lemma Shorter(h: nat, p: seq<nat>, n: nat)
    requires n <= |p|
    ensures HasPrefix(h, p) ==> HasPrefix(h, p[..n])
  {
  }

  // ----- content decides

  /** The value hash of a live entry. */
  ghost function LiveEntry(x: Option<Item>): Option<u16> {
    match x
    case Some(it) => if it.ver > 0 then Some(it.vhash) else None
    case None => None
  }

  /** Two trees over the same bucket with the same live keys and value hashes have
      the same summary wherever both are up to date. */
  lemma SameContentSameNodes(sh: Shape, bp: seq<nat>,
                             levels: seq<seq<Node>>, leafs: seq<seq<byte>>, cells: seq<seq<Cell>>,
                             levels': seq<seq<Node>>, leafs': seq<seq<byte>>, cells': seq<seq<Cell>>, l: nat, o: nat)
    requires TreeOk(sh, bp, levels, leafs, cells) && TreeOk(sh, bp, levels', leafs', cells')
    requires forall h: u64 :: HasPrefix(h, bp) ==> LiveEntry(FindIn(sh, cells, h)) == LiveEntry(FindIn(sh, cells', h))
    requires Up(levels, l, o) && Up(levels', l, o)
    ensures levels[l][o] == levels'[l][o]
  {
    AllPlaced(sh, bp, levels, leafs, cells);
    AllPlaced(sh, bp, levels', leafs', cells');
    RowIs(sh, bp, levels, leafs, cells);
    RowIs(sh, bp, levels', leafs', cells');
    SubtreeFresh(sh, levels, l, o, 0, o);
    SubtreeFresh(sh, levels', l, o, 0, o);
    hide NodesOk, LeavesOk, Fresh, Row, HasPrefix, Idx, MapOf, Pow16;
    forall q | 0 <= q < |cells|
      ensures SameLive(cells[q], cells'[q])
    {
      forall h: u64
        ensures LiveValue(cells[q], h) == LiveValue(cells'[q], h)
      {
        LiveHere(sh, bp, cells, q, h);
        LiveHere(sh, bp, cells', q, h);
      }
    }
    ContentDecides(cells, cells', sh.height - 1 - l, o);
  }

  lemma LiveHere(sh: Shape, bp: seq<nat>, cells: seq<seq<Cell>>, q: nat, h: u64)
    requires sh.Legal() && q < |cells| && Placed(sh.depth, sh.height - 1, cells)
    requires AllIn(bp, cells)
    ensures LiveValue(cells[q], h) ==
      if Idx(sh.depth, h, sh.height - 1) == q && HasPrefix(h, bp) then LiveEntry(FindIn(sh, cells, h)) else None
  {
    hide Idx, HasPrefix, MapOf;
    MapHas(cells[q], h);
    if i :| 0 <= i < |cells[q]| && cells[q][i].hash == h {
      assert cells[q][i] in cells[q];
    }
  }

  datatype Listing = Items(items: seq<Cell>) | Nodes(nodes: seq<Node>)

  /** The summary, from scratch, of all keys that start with the digits p. */
  ghost function Summary(sh: Shape, cells: seq<seq<Cell>>, p: seq<nat>): Node
    requires sh.Legal() && sh.depth <= |p| <= sh.Fixed()
  {
    Fresh(Row(cells), sh.Fixed() - |p|, PathVal(p[sh.depth..]))
  }

  /** The filter that collectItems applies to the items of a leaf. */
  method FilterItems(all: seq<Cell>, items: seq<Cell>, keyHash: nat, shift: nat,
                     ghost p: seq<nat>) returns (items': seq<Cell>)
    requires IsPath(p) && shift == Pow16(16 - |p|) && keyHash == PathVal(p) * shift
    ensures items' == items + Filtered(all, p)
  {
    assert items + Filtered(all[..0], p) == items;
    hide Filtered, Pow16, PathVal, HasPrefix, IsPath;
    items' := items;
    for i := 0 to |all|
      invariant items' == items + Filtered(all[..i], p)
    {
      MaskTests(all[i].hash, p);
      FilteredNext(all, p, i);
      if all[i].hash - all[i].hash % shift == keyHash {
        items' := items' + [all[i]];
      }
    }
    assert all[..|all|] == all;
  }

  lemma NoneBelow(cells: seq<seq<Cell>>, d: nat, o: nat, p: seq<nat>, items: seq<Cell>)
    requires d > 0
    ensures items + Filtered(SubPart(cells, d, o, 0), p) == items
    ensures Sub(cells, d, o) == SubPart(cells, d, o, 16)
  {
  }

  lemma MoreBelow(cells: seq<seq<Cell>>, d: nat, o: nat, i: nat, p: seq<nat>, items: seq<Cell>)
    requires d > 0 && i < 16
    ensures items + Filtered(SubPart(cells, d, o, i), p) + Filtered(Sub(cells, d - 1, o * 16 + i), p)
         == items + Filtered(SubPart(cells, d, o, i + 1), p)
  {
    hide Filtered, Sub;
    var a, b := SubPart(cells, d, o, i), Sub(cells, d - 1, 16 * o + i);
    FilteredConcat(a, b, p);
    ConcatAssoc(items, Filtered(a, p), Filtered(b, p));
  }

  lemma ChildPath(bp: seq<nat>, offset: nat, level: nat, i: nat)
    requires i < 16 && offset < Pow16(level)
    ensures bp + Digits(offset, level) + [i] == bp + Digits(offset * 16 + i, level + 1)
    ensures offset * 16 + i < Pow16(level + 1)
  {
    assert Digits(offset * 16 + i, level + 1) == Digits(offset, level) + [i];
  }

  lemma LeafCells(sh: Shape, bp: seq<nat>, levels: seq<seq<Node>>, leafs: seq<seq<byte>>, cells: seq<seq<Cell>>, q: nat)
    requires TreeOk(sh, bp, levels, leafs, cells) && q < Pow16(sh.height - 1)
    ensures q < |leafs| == |cells| && leafs[q] == Pack(sh.KHashLen(), cells[q]) && AllAligned(cells[q])
    ensures var path := bp + Digits(q, sh.height - 1);
            IsPath(path) && |path| == sh.Fixed() && forall i :: 0 <= i < |cells[q]| ==>
              HasPrefix(cells[q][i].hash, path)
  {
    hide NodesOk, Pow16, HasPrefix;
    assert LeafOk(sh, bp, q, leafs[q], cells[q], levels[sh.height - 1][q]);
  }

  lemma StaysRefreshed(levels: seq<seq<Node>>)
    ensures Refreshed(levels, levels)
  {
  }

  lemma NoChildren(levels: seq<seq<Node>>, l: nat, from: nat, ns: seq<Node>)
    ensures SomeUp(levels, l, from, 0) && SumCounts(ns[..0]) == 0
  {
  }

  /** A node that is out of date is an inner node, and its children are in the tree. */
  lemma BelowNode(sh: Shape, bp: seq<nat>, levels: seq<seq<Node>>, leafs: seq<seq<byte>>, cells: seq<seq<Cell>>,
                  level: nat, offset: nat)
    requires TreeOk(sh, bp, levels, leafs, cells) && level < sh.height && offset < Pow16(level)
    requires !levels[level][offset].updated
    ensures level < sh.height - 1 && 16 * offset + 16 <= Pow16(level + 1)
  {
    hide NodesOk;
    var row := levels[sh.height - 1];
    assert forall o :: 0 <= o < |row| ==> LeafOk(sh, bp, o, leafs[o], cells[o], row[o]);
  }

  lemma NodeStored(sh: Shape, bp: seq<nat>, was: seq<seq<Node>>, levels: seq<seq<Node>>, leafs: seq<seq<byte>>,
                   cells: seq<seq<Cell>>,
                   level: nat, offset: nat, node: Node)
    requires TreeOk(sh, bp, levels, leafs, cells) && level < sh.height - 1 && offset < Pow16(level)
    requires Refreshed(was, levels) && SomeUp(levels, level + 1, 16 * offset, 16)
    requires node == Combine(Children(levels[sh.height - 1], sh.height - 1 - level, offset))
    ensures var levels' := levels[level := levels[level][offset := node]];
            && TreeOk(sh, bp, levels', leafs, cells) && Refreshed(was, levels') && Up(levels', level, offset)
            && levels'[sh.height - 1] == levels[sh.height - 1]
  {
    assert AllUp(levels, level + 1, 16 * offset);
    assert node == Fresh(levels[sh.height - 1], sh.height - 1 - level, offset);
    hide Pow16, NodesOk, Fresh, Combine, LeafOk, AllUp, SomeUp, Refreshed;
    StoreKeeps(sh, levels, level, offset);
    RefreshedTwice(was, levels, levels[level := levels[level][offset := node]]);
  }

  lemma IdxNext(depth: nat, h: nat, level: nat)
    requires depth + level <= 16
    ensures Idx(depth, h, level) == if level == 0 then 0 else Idx(depth, h, level - 1) * 16 + Nibble(h,
            depth + level - 1)
  {
  }

  /** One step on the way down. */
  lemma Descend(sh: Shape, levels: seq<seq<Node>>, mid: seq<seq<Node>>, h: u64, l: nat)
    requires sh.Legal() && Sized(sh, levels) && l < sh.height - 1
    requires Cleared(sh, levels, mid, Idx(sh.depth, h, sh.height - 1), l)
    ensures var o := if l == 0 then 0 else Idx(sh.depth, h, l - 1) * 16 + Nibble(h, sh.depth + l - 1);
            && o == Idx(sh.depth, h, l) && |mid| == sh.height && o < |mid[l]|
            && Cleared(sh, levels, Mark(mid, l, o), Idx(sh.depth, h, sh.height - 1), l + 1)
  {
    hide Cleared, Idx, Nibble, Pow16, Above, Mark;
    IdxNext(sh.depth, h, l);
    PathNode(sh, levels, h, l);
    ClearOne(sh, levels, mid, Idx(sh.depth, h, sh.height - 1), l, Idx(sh.depth, h, l));
  }

  lemma NothingCleared(sh: Shape, levels: seq<seq<Node>>, q: nat)
    requires sh.height >= 1 && |levels| == sh.height
    ensures Cleared(sh, levels, levels, q, 0)
  {
  }

  lemma SetAll(sh: Shape, bp: seq<nat>, levels: seq<seq<Node>>, leafs: seq<seq<byte>>, cells: seq<seq<Cell>>,
               mid: seq<seq<Node>>, q: nat, h: u64, item: Item, leaf: seq<byte>, node: Node)
    requires sh.Legal() && |mid| == sh.height && q < |cells| == |leafs| == |mid[sh.height - 1]|
    requires TreeOk(sh, bp, levels, leafs, cells) && HasPrefix(h, bp) && Aligned(item)
    requires q == Idx(sh.depth, h, sh.height - 1) && Invalidated(sh, levels, mid, q)
    requires leaf == Pack(sh.KHashLen(), SetCells(sh.KHashLen(), cells[q], Cell(h, item)))
    requires var n := LeafNode(cells[q]); var j := Match(sh.KHashLen(), cells[q], h); var exist := j < |cells[q]|;
             && node.updated
             && node.count == (n.count + LiveOf(item) - (if exist then LiveOf(cells[q][j].item) else 0)) % M32
             && node.hash == (n.hash + HashOf(h, item) - (if exist then HashOf(h, cells[q][j].item) else 0)) % M16
    ensures var cs := SetCells(sh.KHashLen(), cells[q], Cell(h, item));
            && TreeOk(sh, bp, mid[sh.height - 1 := mid[sh.height - 1][q := node]], leafs[q := leaf], cells[q := cs])
            && FindIn(sh, cells[q := cs], h) == Some(item)
            && forall k: u64 :: k != h ==> FindIn(sh, cells[q := cs], k) == FindIn(sh, cells, k)
  {
    hide TreeOk, Idx, Pack, HasPrefix, Live, HashSum, LiveOf, HashOf, Digits, IsPath, MapOf, FindIn, Invalidated,
      Pow16, CellsOk, AllAligned, SetCells, LE;
    Shaped(sh, bp, levels, leafs, cells);
    Home(sh, bp, levels, leafs, cells, h);
    var p, lk := bp + Digits(q, sh.height - 1), sh.KHashLen();
    var cs := SetCells(lk, cells[q], Cell(h, item));
    MatchIsMap(sh, p, cells[q], h);
    SetIsMap(sh, p, cells[q], Cell(h, item));
    SetNode(lk, cells[q], Cell(h, item), node);
    LeafReplaced(sh, bp, levels, leafs, cells, mid, q, leaf, cs, node);
    SetFound(sh, cells, q, cs, h, item);
  }

  lemma SetFound(sh: Shape, cells: seq<seq<Cell>>, q: nat, cs: seq<Cell>, h: u64, item: Item)
    requires sh.Legal() && q < |cells| && q == Idx(sh.depth, h, sh.height - 1)
    requires MapOf(cs) == MapOf(cells[q])[h := item]
    ensures FindIn(sh, cells[q := cs], h) == Some(item)
    ensures forall k: u64 :: k != h ==> FindIn(sh, cells[q := cs], k) == FindIn(sh, cells, k)
  {
    hide Idx, MapOf;
    forall k: u64
      ensures k != h ==> FindIn(sh, cells[q := cs], k) == FindIn(sh, cells, k)
    {
      FoundAfter(sh, cells, q, cs, h, k);
    }
    FoundAfter(sh, cells, q, cs, h, h);
  }

  lemma RemoveAll(sh: Shape, bp: seq<nat>, levels: seq<seq<Node>>, leafs: seq<seq<byte>>, cells: seq<seq<Cell>>,
                  mid: seq<seq<Node>>, q: nat, h: u64, anyPos: bool, offset: u32, leaf: seq<byte>, node: Node)
    requires sh.Legal() && |mid| == sh.height && q < |cells| == |leafs| == |mid[sh.height - 1]|
    requires TreeOk(sh, bp, levels, leafs, cells) && HasPrefix(h, bp)
    requires q == Idx(sh.depth, h, sh.height - 1) && Invalidated(sh, levels, mid, q)
    requires leaf == Pack(sh.KHashLen(), RemoveCells(sh.KHashLen(), cells[q], h, anyPos, offset))
    requires var n := LeafNode(cells[q]); var j := Match(sh.KHashLen(), cells[q], h);
             var removed := j < |cells[q]| && Applies(cells[q][j].item, anyPos, offset);
             && node.updated
             && node.count == (n.count - (if removed then LiveOf(cells[q][j].item) else 0)) % M32
             && node.hash == (n.hash - (if removed then HashOf(h, cells[q][j].item) else 0)) % M16
    ensures var cs := RemoveCells(sh.KHashLen(), cells[q], h, anyPos, offset);
            && TreeOk(sh, bp, mid[sh.height - 1 := mid[sh.height - 1][q := node]], leafs[q := leaf], cells[q := cs])
            && FindIn(sh, cells[q := cs], h) == (match FindIn(sh, cells, h)
                 case Some(it) => if Applies(it, anyPos, offset) then None else Some(it)
                 case None => None)
            && forall k: u64 :: k != h ==> FindIn(sh, cells[q := cs], k) == FindIn(sh, cells, k)
  {
    hide TreeOk, Idx, Pack, HasPrefix, Live, HashSum, LiveOf, HashOf, Digits, IsPath, MapOf, FindIn, Invalidated,
      Pow16, CellsOk, AllAligned, RemoveCells, LE;
    Shaped(sh, bp, levels, leafs, cells);
    Home(sh, bp, levels, leafs, cells, h);
    var p, lk := bp + Digits(q, sh.height - 1), sh.KHashLen();
    var cs := RemoveCells(lk, cells[q], h, anyPos, offset);
    MatchIsMap(sh, p, cells[q], h);
    RemoveIsMap(sh, p, cells[q], h, anyPos, offset);
    RemoveNode(lk, cells[q], h, anyPos, offset, node);
    LeafReplaced(sh, bp, levels, leafs, cells, mid, q, leaf, cs, node);
    RemoveFound(sh, cells, q, cs, h, anyPos, offset);
  }

  lemma RemoveFound(sh: Shape, cells: seq<seq<Cell>>, q: nat, cs: seq<Cell>, h: u64, anyPos: bool, offset: u32)
    requires sh.Legal() && q < |cells| && q == Idx(sh.depth, h, sh.height - 1)
    requires var m := MapOf(cells[q]); MapOf(cs) == if h in m && Applies(m[h], anyPos, offset) then m - {h} else m
    ensures FindIn(sh, cells[q := cs], h) == match FindIn(sh, cells, h)
              case Some(it) => if Applies(it, anyPos, offset) then None else Some(it)
              case None => None
    ensures forall k: u64 :: k != h ==> FindIn(sh, cells[q := cs], k) == FindIn(sh, cells, k)
  {
    hide Idx, MapOf;
    forall k: u64
      ensures k != h ==> FindIn(sh, cells[q := cs], k) == FindIn(sh, cells, k)
    {
      FoundAfter(sh, cells, q, cs, h, k);
    }
    FoundAfter(sh, cells, q, cs, h, h);
  }
}
