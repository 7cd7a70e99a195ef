/**
  Node summaries of the hash tree, computed from scratch: what a node's count and
  16-bit hash must be for given leaf contents. The tree itself maintains them
  incrementally and lazily and is proved to agree with this.
*/
module Merkle {
  import opened Bytes
  import opened Leaf

  const THRESHOLD_BIG_HASH := 256
  const M16 := 0x1_0000
  const M32 := 0x1_0000_0000

  datatype Node = Node(count: u32, hash: u16, updated: bool)

  const ZERO := Node(0, 0, false)

  // ----- modular arithmetic

  lemma WrapProduct(a: int, k: int, m: int)
    requires m > 0
    ensures (a % m * k) % m == (a * k) % m
  {
    var q := a / m;
    var y := a % m * k;
    assert a * k == q * k * m + y by {
      assert (q * m + a % m) * k == q * m * k + y;
      assert q * m * k == q * k * m;
    }
    assert (q * k + y / m) * m == q * k * m + y / m * m;
    DivMod(a * k, q * k + y / m, m, y % m);
  }

  // ----- leaves

  /** The weight of a key in hashes: bits 32 to 47 of its hash. */
  function Weight(h: u64): nat {
    h / 0x1_0000_0000 % M16
  }

  /** A live key counts; a deleted one does not. */
  function LiveOf(it: Item): nat {
    if it.ver > 0 then 1 else 0
  }

  /** What a key adds to a hash: its value hash times its weight. */
  function HashOf(h: u64, it: Item): nat {
    if it.ver > 0 then it.vhash * Weight(h) else 0
  }

  function Live(cells: seq<Cell>): nat {
    if cells == [] then 0 else Live(cells[..|cells| - 1]) + LiveOf(cells[|cells| - 1].item)
  }

  function HashSum(cells: seq<Cell>): nat {
    if cells == [] then 0
    else HashSum(cells[..|cells| - 1]) + HashOf(cells[|cells| - 1].hash, cells[|cells| - 1].item)
  }

  function LeafNode(cells: seq<Cell>): Node {
    Node(Live(cells) % M32, HashSum(cells) % M16, true)
  }

  lemma SumsSnoc(cells: seq<Cell>, c: Cell)
    ensures Live(cells + [c]) == Live(cells) + LiveOf(c.item)
    ensures HashSum(cells + [c]) == HashSum(cells) + HashOf(c.hash, c.item)
  {
    assert (cells + [c])[..|cells|] == cells;
  }

  lemma {:induction false} SumsConcat(a: seq<Cell>, b: seq<Cell>)
    ensures Live(a + b) == Live(a) + Live(b) && HashSum(a + b) == HashSum(a) + HashSum(b)
  {
    hide HashOf;
    if b == [] {
      assert a + b == a;
    } else {
      var m := |b| - 1;
      SumsConcat(a, b[..m]);
      assert (a + b)[..|a| + m] == a + b[..m];
    }
  }

  lemma SumsAt(cells: seq<Cell>, j: nat)
    requires j < |cells|
    ensures Live(cells) == Live(cells[..j]) + LiveOf(cells[j].item) + Live(cells[j + 1..])
    ensures HashSum(cells) == HashSum(cells[..j]) + HashOf(cells[j].hash, cells[j].item) + HashSum(cells[j + 1..])
  {
    hide Live, HashSum, HashOf;
    SumsSnoc(cells[..j], cells[j]);
    SumsConcat(cells[..j] + [cells[j]], cells[j + 1..]);
    assert cells == cells[..j] + [cells[j]] + cells[j + 1..];
  }

  lemma SumsReplace(cells: seq<Cell>, j: nat, c: Cell)
    requires j < |cells|
    ensures Live(cells[j := c]) == Live(cells) - LiveOf(cells[j].item) + LiveOf(c.item)
    ensures HashSum(cells[j := c]) == HashSum(cells) - HashOf(cells[j].hash, cells[j].item) + HashOf(c.hash, c.item)
  {
    hide Live, HashSum, HashOf;
    var cells' := cells[j := c];
    SumsAt(cells, j);
    SumsAt(cells', j);
    assert cells'[..j] == cells[..j] && cells'[j + 1..] == cells[j + 1..];
  }

  lemma SumsDrop(cells: seq<Cell>, j: nat)
    requires j < |cells|
    ensures Live(cells[..j] + cells[j + 1..]) == Live(cells) - LiveOf(cells[j].item)
    ensures HashSum(cells[..j] + cells[j + 1..]) == HashSum(cells) - HashOf(cells[j].hash, cells[j].item)
  {
    hide Live, HashSum, HashOf;
    SumsAt(cells, j);
    SumsConcat(cells[..j], cells[j + 1..]);
  }

  // ----- inner nodes

  function SumCounts(ns: seq<Node>): nat {
    if ns == [] then 0 else SumCounts(ns[..|ns| - 1]) + ns[|ns| - 1].count
  }

  /** Hashes of few keys add up; those of many are mixed by position. */
  function FoldHash(ns: seq<Node>, big: bool): u16 {
    if ns == [] then 0
    else
      var h := FoldHash(ns[..|ns| - 1], big);
      ((if big then h * 97 % M16 else h) + ns[|ns| - 1].hash) % M16
  }

  function Combine(ns: seq<Node>): Node {
    var count := SumCounts(ns) % M32;
    Node(count, FoldHash(ns, count > THRESHOLD_BIG_HASH), true)
  }

  /** The node d levels above the leaf row, at offset o, from scratch. */
  function Fresh(row: seq<Node>, d: nat, o: nat): Node
    decreases d, 1
  {
    if d == 0 then if o < |row| then row[o] else ZERO
    else Combine(Children(row, d, o))
  }

  function Children(row: seq<Node>, d: nat, o: nat): (ns: seq<Node>)
    requires d > 0
    ensures |ns| == 16
    decreases d, 0
  {
    seq(16, i requires 0 <= i < 16 => Fresh(row, d - 1, 16 * o + i))
  }

  /** The offset, d levels up, of the node above leaf q. */
  function Above(q: nat, d: nat): nat {
    if d == 0 then q else Above(q, d - 1) / 16
  }

  /** Only the nodes above a leaf depend on it. */
  lemma {:induction false} FreshFrame(row: seq<Node>, q: nat, n: Node, d: nat, o: nat)
    requires q < |row| && Above(q, d) != o
    ensures Fresh(row[q := n], d, o) == Fresh(row, d, o)
    decreases d
  {
    if d > 0 {
      var a, b := Children(row[q := n], d, o), Children(row, d, o);
      forall i | 0 <= i < 16
        ensures a[i] == b[i]
      {
        FreshFrame(row, q, n, d - 1, 16 * o + i);
      }
      assert a == b;
    }
  }
}
