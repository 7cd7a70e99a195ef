/**
  Index files: a header, the items of a split in sorted order, and a sparse table
  of hashes and offsets by which a key is found without reading the whole file.
*/
module HintFile {
  import opened Bytes
  import opened HintItems

  const HEAD_SIZE := 16
  const ITEM_HEAD_SIZE := 23
  const ROW_SIZE := 4096
  const MAX_ITEMS := 4095 * 4096  // what the rows of the table have room for

  // ----- items as bytes

  predicate Writable(it: HintItem) {
    it.chunk < 0x1_0000_0000 && |it.key| < 256
  }

  function ItemBytes(it: HintItem): (b: seq<byte>)
    requires Writable(it)
    ensures |b| == ITEM_HEAD_SIZE + |it.key|
  {
    LE(it.hash, 8) + LE(it.chunk, 4) + LE(it.offset, 4) + LE(U32(it.ver), 4) + LE(it.vhash, 2) + [|it.key|] + it.key
  }

  /** hintFileReader.next at a position of the file; None where the file ends early. */
  function ReadItem(file: seq<byte>, p: nat): (r: Option<HintItem>)
    ensures r.Some? ==> p + ITEM_HEAD_SIZE + |r.value.key| <= |file|
  {
    if p + ITEM_HEAD_SIZE > |file| then None
    else
      var hd := file[p..p + ITEM_HEAD_SIZE];
      var ksz := hd[22];
      if p + ITEM_HEAD_SIZE + ksz > |file| then None
      else
        ValBound(hd[..8]);
        ValBound(hd[8..12]);
        ValBound(hd[12..16]);
        ValBound(hd[16..20]);
        ValBound(hd[20..22]);
        Pow256Values();
        Some(HintItem(Val(hd[..8]), Val(hd[8..12]), Val(hd[12..16]), I32(Val(hd[16..20])), Val(hd[20..22]),
                      file[p + ITEM_HEAD_SIZE..p + ITEM_HEAD_SIZE + ksz]))
  }

  lemma HeadParts(it: HintItem)
    requires Writable(it)
    ensures var b := ItemBytes(it);
            && b[..8] == LE(it.hash, 8) && b[8..12] == LE(it.chunk, 4) && b[12..16] == LE(it.offset, 4)
            && b[16..20] == LE(U32(it.ver), 4) && b[20..22] == LE(it.vhash, 2) && b[22] == |it.key| && b[23..] == it.key
  {
    hide LE;
  }

  lemma ReadWritten(file: seq<byte>, p: nat, it: HintItem)
    requires Writable(it) && p + |ItemBytes(it)| <= |file| && file[p..p + |ItemBytes(it)|] == ItemBytes(it)
    ensures ReadItem(file, p) == Some(it)
  {
    hide LE, Val;
    var b, n := ItemBytes(it), |ItemBytes(it)|;
    HeadParts(it);
    var hd := file[p..p + ITEM_HEAD_SIZE];
    assert hd == b[..ITEM_HEAD_SIZE];
    assert hd[..8] == b[..8] && hd[8..12] == b[8..12] && hd[12..16] == b[12..16] && hd[16..20] == b[16..20]
           && hd[20..22] == b[20..22];
    SubSlice(file, p, n, ITEM_HEAD_SIZE, n);
    Pow256Values();
    ValLE(it.hash, 8);
    ValLE(it.chunk, 4);
    ValLE(it.offset, 4);
    ValLE(U32(it.ver), 4);
    ValLE(it.vhash, 2);
  }

  // ----- the item section

  ghost predicate AllWritable(its: seq<HintItem>) {
    forall i :: 0 <= i < |its| ==> Writable(its[i])
  }

  function Encoded(its: seq<HintItem>): seq<byte>
    requires AllWritable(its)
  {
    if its == [] then [] else Encoded(its[..|its| - 1]) + ItemBytes(its[|its| - 1])
  }

  /** The offset of item i in the file. */
  function Off(its: seq<HintItem>, i: nat): nat
    requires AllWritable(its) && i <= |its|
  {
    HEAD_SIZE + |Encoded(its[..i])|
  }

  lemma EncodedSnoc(its: seq<HintItem>, it: HintItem)
    requires AllWritable(its) && Writable(it)
    ensures AllWritable(its + [it]) && Encoded(its + [it]) == Encoded(its) + ItemBytes(it)
  {
    assert (its + [it])[..|its|] == its;
  }

  lemma {:induction false} EncodedPrefix(its: seq<HintItem>, i: nat)
    requires AllWritable(its) && i <= |its|
    ensures Encoded(its[..i]) <= Encoded(its)
  {
    hide ItemBytes;
    if i < |its| {
      var m := |its| - 1;
      EncodedPrefix(its[..m], i);
      assert its[..m][..i] == its[..i];
    } else {
      assert its[..i] == its;
    }
  }

  lemma EncodedAt(its: seq<HintItem>, i: nat)
    requires AllWritable(its) && i < |its|
    ensures |Encoded(its[..i + 1])| == |Encoded(its[..i])| + |ItemBytes(its[i])| <= |Encoded(its)|
    ensures Encoded(its)[|Encoded(its[..i])|..|Encoded(its[..i + 1])|] == ItemBytes(its[i])
  {
    hide ItemBytes, Encoded;
    EncodedPrefix(its, i + 1);
    EncodedSnoc(its[..i], its[i]);
    assert its[..i + 1] == its[..i] + [its[i]];
    Behind(Encoded(its[..i]), ItemBytes(its[i]), Encoded(its));
  }

  // ----- the sparse table while it is built

  datatype IndexItem = IndexItem(hash: u64, offset: nat)

  const NO_ITEM := IndexItem(0, 0)

  /** Rows of fixed size, filled one after the other. */
  class IndexBuffer {
    var rows: seq<seq<IndexItem>>
    var currRow: nat
    var currCol: nat
    var lastoffset: nat
    ghost var entries: seq<IndexItem>  // what was appended

    ghost predicate Valid()
      reads this
    {
      && currRow < |rows| && currCol < ROW_SIZE && |entries| == ROW_SIZE * currRow + currCol
      && (forall r :: 0 <= r <= currRow ==> |rows[r]| == ROW_SIZE)
      && (forall r :: 0 <= r < currRow ==> rows[r] == entries[ROW_SIZE * r..ROW_SIZE * (r + 1)])
      && rows[currRow][..currCol] == entries[ROW_SIZE * currRow..]
    }

    constructor ()
      ensures Valid() && entries == [] && lastoffset == 0 && |rows| == 4096
    {
      rows := seq(4096, r => if r == 0 then seq(ROW_SIZE, _ => NO_ITEM) else []);
      currRow, currCol, lastoffset, entries := 0, 0, 0, [];
    }

    /** append; there is room for one more entry before the last row is left. */
    method Append(hash: u64, offset: nat)
      requires Valid() && currRow + 1 < |rows|
      modifies this
      ensures Valid() && entries == old(entries) + [IndexItem(hash, offset)] && lastoffset == offset
      ensures |rows| == old(|rows|)
    {
      ghost var e := IndexItem(hash, offset);
      RowGrows(rows[currRow], entries, currRow, currCol, e);
      rows := rows[currRow := rows[currRow][currCol := IndexItem(hash, offset)]];
      lastoffset := offset;
      ghost var was := entries;
      entries := entries + [e];
      Kept(was, e, currRow);
      if currCol >= ROW_SIZE - 1 {
        currRow := currRow + 1;
        rows := rows[currRow := seq(ROW_SIZE, _ => NO_ITEM)];
        currCol := 0;
      } else {
        currCol := currCol + 1;
      }
    }

    /** toIndex: the rows flatten to what was appended. */
    method ToIndex() returns (arr: seq<IndexItem>)
      requires Valid()
      ensures arr == entries
    {
      arr := [];
      for r := 0 to currRow
        invariant arr == entries[..ROW_SIZE * r]
      {
        arr := arr + rows[r];
      }
      arr := arr + rows[currRow][..currCol];
    }
  }

  lemma RowGrows(row: seq<IndexItem>, entries: seq<IndexItem>, r: nat, col: nat, e: IndexItem)
    requires |row| == ROW_SIZE && col < ROW_SIZE && |entries| == ROW_SIZE * r + col
    requires row[..col] == entries[ROW_SIZE * r..]
    ensures row[col := e][..col + 1] == (entries + [e])[ROW_SIZE * r..]
    ensures col + 1 == ROW_SIZE ==> row[col := e] == (entries + [e])[ROW_SIZE * r..ROW_SIZE * (r + 1)]
  {
    var row', entries' := row[col := e], entries + [e];
    assert forall i :: 0 <= i < col ==>
      row'[i] == row[..col][i] && entries'[ROW_SIZE * r + i] == entries[ROW_SIZE * r..][i];
  }

  lemma Kept(entries: seq<IndexItem>, e: IndexItem, n: nat)
    requires ROW_SIZE * n <= |entries|
    ensures forall r :: 0 <= r < n ==>
              (entries + [e])[ROW_SIZE * r..ROW_SIZE * (r + 1)] == entries[ROW_SIZE * r..ROW_SIZE * (r + 1)]
  {
  }

  // ----- the table on disk

  function EntryBytes(e: IndexItem): (b: seq<byte>)
    ensures |b| == 16
  {
    LE(e.hash, 8) + LE(e.offset, 8)
  }

  function TableBytes(es: seq<IndexItem>): (b: seq<byte>)
    ensures |b| == 16 * |es|
  {
    if es == [] then [] else TableBytes(es[..|es| - 1]) + EntryBytes(es[|es| - 1])
  }

  function ReadEntry(raw: seq<byte>, p: nat): IndexItem
    requires p + 16 <= |raw|
  {
    ValBound(raw[p..p + 8]);
    Pow256Values();
    IndexItem(Val(raw[p..p + 8]), Val(raw[p + 8..p + 16]))
  }

  lemma {:induction false} TableAt(es: seq<IndexItem>, i: nat)
    requires i < |es|
    ensures TableBytes(es)[16 * i..16 * i + 16] == EntryBytes(es[i])
  {
    var m := |es| - 1;
    if i < m {
      TableAt(es[..m], i);
      assert TableBytes(es)[16 * i..16 * i + 16] == TableBytes(es[..m])[16 * i..16 * i + 16];
    }
  }

  lemma EntryReads(raw: seq<byte>, p: nat, e: IndexItem)
    requires p + 16 <= |raw| && raw[p..p + 16] == EntryBytes(e) && e.offset < 0x1_0000_0000_0000_0000
    ensures ReadEntry(raw, p) == e
  {
    hide LE, Val;
    var b := EntryBytes(e);
    SubSlice(raw, p, 16, 0, 8);
    SubSlice(raw, p, 16, 8, 16);
    assert b[0..8] == LE(e.hash, 8) && b[8..16] == LE(e.offset, 8);
    Pow256Values();
    ValLE(e.hash, 8);
    ValLE(e.offset, 8);
  }

  // ----- whole files

  datatype Meta = Meta(indexOffset: nat, numKey: nat, datasize: u32)

  predicate MetaOk(m: Meta) {
    m.indexOffset < 0x8000_0000_0000_0000 && m.numKey < 0x1_0000_0000
  }

  function MetaBytes(m: Meta): (b: seq<byte>)
    ensures |b| == HEAD_SIZE
  {
    LE(m.indexOffset, 8) + LE(m.numKey, 4) + LE(m.datasize, 4)
  }

  function LoadMeta(b: seq<byte>): Meta
    requires |b| >= HEAD_SIZE
  {
    ValBound(b[12..16]);
    Pow256Values();
    Meta(Val(b[0..8]), Val(b[8..12]), Val(b[12..16]))
  }

  lemma MetaRoundTrip(m: Meta, b: seq<byte>)
    requires MetaOk(m) && |b| >= HEAD_SIZE && b[..HEAD_SIZE] == MetaBytes(m)
    ensures LoadMeta(b) == m
  {
    hide LE, Val;
    var x := MetaBytes(m);
    assert x[0..8] == LE(m.indexOffset, 8) && x[8..12] == LE(m.numKey, 4) && x[12..16] == LE(m.datasize, 4);
    assert b[0..8] == x[0..8] && b[8..12] == x[8..12] && b[12..16] == x[12..16];
    Pow256Values();
    ValLE(m.indexOffset, 8);
    ValLE(m.numKey, 4);
    ValLE(m.datasize, 4);
  }

  /** A table entry points at an item and has its hash. */
  ghost predicate PointsAt(e: IndexItem, its: seq<HintItem>, i: nat)
    requires AllWritable(its)
  {
    i < |its| && e == IndexItem(its[i].hash, Off(its, i))
  }

  ghost predicate PointsInto(e: IndexItem, its: seq<HintItem>)
    requires AllWritable(its)
  {
    exists i: nat :: PointsAt(e, its, i)
  }

  ghost predicate TablePoints(es: seq<IndexItem>, its: seq<HintItem>)
    requires AllWritable(its)
  {
    forall j :: 0 <= j < |es| ==> PointsInto(es[j], its)
  }

  /** A finished file. */
  ghost predicate IsFile(file: seq<byte>, its: seq<HintItem>, es: seq<IndexItem>, m: Meta) {
    && AllWritable(its) && MetaOk(m) && TablePoints(es, its)
    && m.indexOffset == HEAD_SIZE + |Encoded(its)| && m.numKey == |its|
    && file == MetaBytes(m) + Encoded(its) + TableBytes(es)
  }

  lemma PointsLater(es: seq<IndexItem>, its: seq<HintItem>, it: HintItem)
    requires AllWritable(its) && Writable(it) && TablePoints(es, its)
    ensures AllWritable(its + [it]) && TablePoints(es, its + [it])
    ensures PointsAt(IndexItem(it.hash, HEAD_SIZE + |Encoded(its)|), its + [it], |its|)
  {
    hide Encoded;
    var its' := its + [it];
    assert its'[..|its|] == its;
    forall j | 0 <= j < |es|
      ensures PointsInto(es[j], its')
    {
      var i: nat :| PointsAt(es[j], its, i);
      assert its'[..i] == its[..i];
      assert PointsAt(es[j], its', i);
    }
  }

  class FileWriter {
    const interval: int  // the configured table interval, less the size of an item
    const datasize: u32
    const index: IndexBuffer
    var fd: seq<byte>
    var offset: nat
    var numKey: nat
    ghost var its: seq<HintItem>  // what was written

    ghost predicate Valid()
      reads this, index
    {
      && index.Valid() && AllWritable(its) && numKey == |its|
      && |fd| == offset == HEAD_SIZE + |Encoded(its)| && fd[HEAD_SIZE..] == Encoded(its)
      && TablePoints(index.entries, its) && |index.entries| <= |its| <= MAX_ITEMS && |index.rows| == 4096
      && offset <= HEAD_SIZE + (ITEM_HEAD_SIZE + 255) * |its|
    }

    constructor (datasize: u32, interval: int)
      ensures Valid() && fresh(index) && its == [] && this.datasize == datasize && this.interval == interval
      ensures index.entries == [] && index.lastoffset == 0
    {
      this.interval, this.datasize := interval, datasize;
      index := new IndexBuffer();
      fd := seq(HEAD_SIZE, _ => 0);
      offset, numKey, its := HEAD_SIZE, 0, [];
    }

    method WriteItem(it: HintItem)
      requires Valid() && Writable(it) && |its| < MAX_ITEMS
      modifies this, index
      ensures Valid() && its == old(its) + [it]
      ensures index.entries == old(index.entries) +
                if old(offset) - old(index.lastoffset) > interval then [IndexItem(it.hash, old(offset))] else []
      ensures index.lastoffset ==
              if old(offset) - old(index.lastoffset) > interval then old(offset) else old(index.lastoffset)
    {
      hide ItemBytes, Encoded, PointsInto, PointsAt;
      EncodedSnoc(its, it);
      PointsLater(index.entries, its, it);
      fd := fd + ItemBytes(it);
      if offset - index.lastoffset > interval {
        PointIsIn(IndexItem(it.hash, offset), its + [it], |its|);
        index.Append(it.hash, offset);
      }
      offset := offset + ITEM_HEAD_SIZE + |it.key|;
      numKey := numKey + 1;
      its := its + [it];
    }

    method Close() returns (es: seq<IndexItem>, meta: Meta)
      requires Valid()
      modifies this
      ensures its == old(its) && meta.datasize == datasize && IsFile(fd, its, es, meta) && es == index.entries
    {
      hide Encoded, PointsInto, MetaBytes, TableBytes;
      es := index.ToIndex();
      meta := Meta(offset, numKey, datasize);
      var table := WriteTable(es);
      fd := fd + table;
      fd := MetaBytes(meta) + fd[HEAD_SIZE..];
    }
  }

  lemma PointIsIn(e: IndexItem, its: seq<HintItem>, i: nat)
    requires AllWritable(its) && PointsAt(e, its, i)
    ensures PointsInto(e, its)
  {
  }

  method WriteTable(es: seq<IndexItem>) returns (table: seq<byte>)
    ensures table == TableBytes(es)
  {
    table := [];
    for i := 0 to |es|
      invariant table == TableBytes(es[..i])
    {
      assert es[..i + 1][..i] == es[..i];
      table := table + EntryBytes(es[i]);
    }
    assert es[..|es|] == es;
  }

  /** loadHintIndex: the header and the table as they were written. */
  method LoadHintIndex(file: seq<byte>, ghost its: seq<HintItem>, ghost es: seq<IndexItem>, ghost m: Meta)
    returns (r: Option<(Meta, seq<IndexItem>)>)
    requires IsFile(file, its, es, m)
    ensures r == Some((m, es))
  {
    hide Encoded, PointsInto, MetaBytes, TableBytes, LoadMeta, Val, ReadEntry, EntryBytes;
    if |file| < HEAD_SIZE {
      return None;
    }
    MetaRoundTrip(m, file);
    var meta := LoadMeta(file);
    var num := |file| - meta.indexOffset;
    var raw := file[meta.indexOffset..];
    assert raw == TableBytes(es);
    var arr := [];
    for i := 0 to num / 16
      invariant arr == es[..i]
    {
      TableAt(es, i);
      OffsetFits(file, its, es, m, i);
      EntryReads(raw, 16 * i, es[i]);
      arr := arr + [ReadEntry(raw, 16 * i)];
    }
    assert es[..|es|] == es;
    r := Some((meta, arr));
  }

  lemma OffsetFits(file: seq<byte>, its: seq<HintItem>, es: seq<IndexItem>, m: Meta, i: nat)
    requires IsFile(file, its, es, m) && i < |es|
    ensures es[i].offset < 0x8000_0000_0000_0000
  {
    hide Encoded, ItemBytes;
    assert PointsInto(es[i], its);
    var k: nat :| PointsAt(es[i], its, k);
    EncodedAt(its, k);
  }

  // ----- lookup

  /** sort.Search: the entry before the result, if any, has a smaller hash. */
  method Search(arr: seq<IndexItem>, h: u64) returns (i: nat)
    ensures i <= |arr| && (i > 0 ==> arr[i - 1].hash < h)
    ensures i < |arr| ==> arr[i].hash >= h
  {
    var j := |arr|;
    i := 0;
    while i < j
      invariant i <= j <= |arr| && (i > 0 ==> arr[i - 1].hash < h) && (j < |arr| ==> arr[j].hash >= h)
    {
      var m := (i + j) / 2;
      if !(arr[m].hash >= h) {
        i := m + 1;
      } else {
        j := m;
      }
    }
  }

  lemma OnlyThere(its: seq<HintItem>, h: u64, k: Key, t: nat)
    requires Sorted(its)
    ensures t < |its| && Is(its[t], h, k) ==> forall it :: it in its && Is(it, h, k) ==> it == its[t]
  {
    hide Less;
    if t < |its| && Is(its[t], h, k) {
      forall i | 0 <= i < |its| && Is(its[i], h, k)
        ensures i == t
      {
        LessTotal(its[i], its[t]);
        LessTotal(its[t], its[i]);
      }
    }
  }

  lemma NotAfter(its: seq<HintItem>, i: nat, t: nat)
    requires Sorted(its) && i <= t < |its|
    ensures its[i].hash <= its[t].hash
  {
    assert i < t ==> Less(its[i], its[t]);
  }

  /** Item i is what the reader finds at its offset, before the table begins. */
  lemma ItemHere(file: seq<byte>, its: seq<HintItem>, es: seq<IndexItem>, m: Meta, i: nat)
    requires IsFile(file, its, es, m) && i < |its|
    ensures Off(its, i) < m.indexOffset && ReadItem(file, Off(its, i)) == Some(its[i])
    ensures Off(its, i + 1) == Off(its, i) + ITEM_HEAD_SIZE + |its[i].key|
  {
    hide Encoded, MetaBytes, TableBytes, ItemBytes, ReadItem;
    EncodedAt(its, i);
    var a, b := |Encoded(its[..i])|, |Encoded(its[..i + 1])|;
    Inner(MetaBytes(m), Encoded(its), TableBytes(es), a, b);
    ReadWritten(file, HEAD_SIZE + a, its[i]);
  }

  lemma Inner(x: seq<byte>, y: seq<byte>, z: seq<byte>, a: nat, b: nat)
    requires a <= b <= |y|
    ensures (x + y + z)[|x| + a..|x| + b] == y[a..b]
  {
  }

  /** Reading item after item for a key. The reader keeps its own count of where it is,
      which decides where the items end. */
  function Scan(file: seq<byte>, pos: nat, readerOffset: nat, indexOffset: nat, h: u64, k: Key): (Option<HintItem>,
    bool)
    decreases |file| - pos
  {
    if readerOffset >= indexOffset then (None, false)
    else
      match ReadItem(file, pos)
      case None => (None, true)
      case Some(it) =>
        var size := ITEM_HEAD_SIZE + |it.key|;
        if it.hash > h then (None, false)
        else if it.hash == h && it.key == k then (Some(it), false)
        else Scan(file, pos + size, readerOffset + size, indexOffset, h, k)
  }

  /** What the search of the table may return. */
  ghost predicate Searched(arr: seq<IndexItem>, h: u64, j: nat) {
    j <= |arr| && (j > 0 ==> arr[j - 1].hash < h) && (j < |arr| ==> arr[j].hash >= h)
  }

  function Start(arr: seq<IndexItem>, j: nat): nat
    requires j <= |arr|
  {
    if j > 1 then arr[j - 1].offset else HEAD_SIZE
  }

  ghost predicate Absent(its: seq<HintItem>, h: u64, k: Key) {
    forall it :: it in its ==> !Is(it, h, k)
  }

  /** A scan that starts at or before the key finds it; one that starts at or before a
      larger hash finds that the key is missing. */
  lemma {:induction false} ScanStops(file: seq<byte>, its: seq<HintItem>, es: seq<IndexItem>, m: Meta, h: u64,
                                     k: Key, i: nat, t: nat, ro: nat)
    requires IsFile(file, its, es, m) && Sorted(its) && i <= t < |its| && ro <= Off(its, i)
    requires Is(its[t], h, k) || (its[t].hash > h && Absent(its, h, k))
    ensures Scan(file, Off(its, i), ro, m.indexOffset, h, k) == (if Is(its[t], h, k) then Some(its[t]) else None, false)
    decreases t - i
  {
    hide IsFile, Off, ReadItem, Less;
    ItemHere(file, its, es, m, i);
    NotAfter(its, i, t);
    OnlyThere(its, h, k, t);
    assert its[i] in its;
    if i < t && its[i].hash <= h && !Is(its[i], h, k) {
      ScanStops(file, its, es, m, h, k, i + 1, t, ro + ITEM_HEAD_SIZE + |its[i].key|);
    }
  }

  /** A scan from the head of the file, where the reader's count is right, finds that a
      key is missing. */
  lemma {:induction false} ScanRunsOut(file: seq<byte>, its: seq<HintItem>, es: seq<IndexItem>, m: Meta, h: u64,
                                       k: Key, i: nat)
    requires IsFile(file, its, es, m) && Absent(its, h, k) && i <= |its|
    ensures Scan(file, Off(its, i), Off(its, i), m.indexOffset, h, k) == (None, false)
    decreases |its| - i
  {
    hide ReadItem, Encoded;
    if i == |its| {
      assert its[..i] == its;
    } else {
      ItemHere(file, its, es, m, i);
      assert its[i] in its;
      ScanRunsOut(file, its, es, m, h, k, i + 1);
    }
  }

  /** Where neither holds the scan goes on into the table, by as many bytes as it had
      skipped at the start. */
  lemma {:induction false} ScanIntoTable(file: seq<byte>, its: seq<HintItem>, es: seq<IndexItem>, m: Meta, h: u64,
                                         k: Key, i: nat, ro: nat)
    requires IsFile(file, its, es, m) && Absent(its, h, k) && i <= |its| && ro <= Off(its, i) <= m.indexOffset
    requires forall t :: 0 <= t < |its| ==> its[t].hash <= h
    ensures Scan(file, Off(its, i), ro, m.indexOffset, h, k)
         == Scan(file, m.indexOffset, ro + (m.indexOffset - Off(its, i)), m.indexOffset, h, k)
    decreases |its| - i
  {
    hide ReadItem, Encoded;
    if i == |its| {
      assert its[..i] == its;
    } else {
      ItemHere(file, its, es, m, i);
      assert its[i] in its;
      OffInside(its, i + 1);
      ScanIntoTable(file, its, es, m, h, k, i + 1, ro + ITEM_HEAD_SIZE + |its[i].key|);
    }
  }

  lemma OffInside(its: seq<HintItem>, i: nat)
    requires AllWritable(its) && i <= |its|
    ensures Off(its, i) <= HEAD_SIZE + |Encoded(its)|
  {
    EncodedPrefix(its, i);
  }

  /** The scan's start, as an item. */
  lemma StartsAt(its: seq<HintItem>, arr: seq<IndexItem>, h: u64, j: nat, t: nat) returns (i: nat)
    requires AllWritable(its) && TablePoints(arr, its) && Sorted(its) && Searched(arr, h, j)
    requires t < |its| && its[t].hash >= h
    ensures i <= t && Off(its, i) == Start(arr, j) && Off(its, i) >= HEAD_SIZE
  {
    i := 0;
    assert its[..0] == [];
    if j > 1 {
      assert PointsInto(arr[j - 1], its);
      i :| PointsAt(arr[j - 1], its, i);
      assert t < i ==> Less(its[t], its[i]);
    }
  }

  lemma KeyFound(file: seq<byte>, its: seq<HintItem>, arr: seq<IndexItem>, m: Meta, h: u64, k: Key, j: nat,
                 it: HintItem)
    requires IsFile(file, its, arr, m) && Sorted(its) && Searched(arr, h, j) && it in its && Is(it, h, k)
    ensures Scan(file, Start(arr, j), HEAD_SIZE, m.indexOffset, h, k) == (Some(it), false)
  {
    hide Scan, Less, Encoded, PointsInto, MetaBytes, TableBytes;
    var t :| 0 <= t < |its| && its[t] == it;
    var i := StartsAt(its, arr, h, j, t);
    ScanStops(file, its, arr, m, h, k, i, t, HEAD_SIZE);
  }

  /** The table has at most one hash below h, so a scan starts at the head. */
  ghost predicate FromHead(arr: seq<IndexItem>, h: u64) {
    forall j :: 1 <= j < |arr| ==> arr[j].hash >= h
  }

  lemma KeyMissing(file: seq<byte>, its: seq<HintItem>, arr: seq<IndexItem>, m: Meta, h: u64, k: Key, j: nat)
    requires IsFile(file, its, arr, m) && Sorted(its) && Searched(arr, h, j) && Absent(its, h, k)
    requires FromHead(arr, h) || exists t :: 0 <= t < |its| && its[t].hash > h
    ensures Scan(file, Start(arr, j), HEAD_SIZE, m.indexOffset, h, k) == (None, false)
  {
    hide Scan, Less, Encoded, PointsInto, MetaBytes, TableBytes;
    if FromHead(arr, h) {
      AtHead(its);
      ScanRunsOut(file, its, arr, m, h, k, 0);
    } else {
      var t :| 0 <= t < |its| && its[t].hash > h;
      var i := StartsAt(its, arr, h, j, t);
      ScanStops(file, its, arr, m, h, k, i, t, HEAD_SIZE);
    }
  }

  /** A key beyond all items is answered by the table, read as items for as many bytes as
      the scan skipped at its start. */
  lemma KeyBeyond(file: seq<byte>, its: seq<HintItem>, arr: seq<IndexItem>, m: Meta, h: u64, k: Key, j: nat)
    requires IsFile(file, its, arr, m) && Sorted(its) && Searched(arr, h, j) && Absent(its, h, k)
    requires forall t :: 0 <= t < |its| ==> its[t].hash <= h
    ensures HEAD_SIZE <= Start(arr, j) <= m.indexOffset
    ensures Scan(file, Start(arr, j), HEAD_SIZE, m.indexOffset, h, k)
         == Scan(file, m.indexOffset, HEAD_SIZE + (m.indexOffset - Start(arr, j)), m.indexOffset, h, k)
  {
    hide Scan, Less, Encoded, MetaBytes, TableBytes;
    var i: nat := 0;
    AtHead(its);
    if j > 1 {
      assert PointsInto(arr[j - 1], its);
      i :| PointsAt(arr[j - 1], its, i);
    }
    OffInside(its, i);
    ScanIntoTable(file, its, arr, m, h, k, i, HEAD_SIZE);
  }

  lemma AtHead(its: seq<HintItem>)
    requires AllWritable(its)
    ensures Off(its, 0) == HEAD_SIZE
  {
    assert its[..0] == [];
  }

  /** hintFileIndex.get finds every key the file holds, and reports a missing key as
      missing if some item has a larger hash or the scan starts at the head. In the case that
      remains the answer is what the table says when it is read as items. */
  method Get(file: seq<byte>, arr: seq<IndexItem>, h: u64, k: Key, ghost its: seq<HintItem>, ghost m: Meta)
    returns (item: Option<HintItem>, err: bool)
    requires IsFile(file, its, arr, m) && Sorted(its)
    ensures exists j :: Searched(arr, h, j) && (item, err) == Scan(file, Start(arr, j), HEAD_SIZE, m.indexOffset, h, k)
    ensures forall it :: it in its && Is(it, h, k) ==> !err && item == Some(it)
    ensures Absent(its, h, k) && (FromHead(arr, h) || exists t :: 0 <= t < |its| && its[t].hash > h) ==>
              !err && item == None
    ensures Absent(its, h, k) && (forall t :: 0 <= t < |its| ==> its[t].hash <= h) ==>
              exists j :: Searched(arr, h, j) && HEAD_SIZE <= Start(arr, j) <= m.indexOffset &&
                          (item, err) == Scan(file, m.indexOffset, HEAD_SIZE + (m.indexOffset - Start(arr, j)),
                                              m.indexOffset, h, k)
  {
    hide Encoded, MetaBytes, TableBytes, LoadMeta, TablePoints, ReadItem, Sorted, Absent, FromHead, AllWritable;
    item, err := None, false;
    var j := Search(arr, h);
    var offset := HEAD_SIZE;
    if j > 1 {
      offset := arr[j - 1].offset;
    }
    MetaRoundTrip(m, file);
    var indexOffset := LoadMeta(file).indexOffset;
    var pos: nat, readerOffset: nat := offset, HEAD_SIZE;
    forall it | it in its && Is(it, h, k)
      ensures Scan(file, Start(arr, j), HEAD_SIZE, m.indexOffset, h, k) == (Some(it), false)
    {
      KeyFound(file, its, arr, m, h, k, j, it);
    }
    if Absent(its, h, k) && (FromHead(arr, h) || exists t :: 0 <= t < |its| && its[t].hash > h) {
      KeyMissing(file, its, arr, m, h, k, j);
    }
    if Absent(its, h, k) && forall t :: 0 <= t < |its| ==> its[t].hash <= h {
      KeyBeyond(file, its, arr, m, h, k, j);
    }
    while true
      invariant Scan(file, pos, readerOffset, indexOffset, h, k) ==
                Scan(file, Start(arr, j), HEAD_SIZE, m.indexOffset, h, k)
      decreases |file| - pos
    {
      if readerOffset >= indexOffset {
        return None, false;
      }
      var next := ReadItem(file, pos);
      if next == None {
        return None, true;
      }
      var it := next.value;
      pos := pos + ITEM_HEAD_SIZE + |it.key|;
      readerOffset := readerOffset + ITEM_HEAD_SIZE + |it.key|;
      if it.hash < h {
        continue;
      } else if it.hash > h {
        return None, false;
      } else {
        if it.key == k {
          return Some(it), false;
        }
        continue;
      }
    }
  }

  lemma TwoItems(a: HintItem, b: HintItem, es: seq<IndexItem>)
    requires Writable(a) && Writable(b)
    requires es == [IndexItem(a.hash, HEAD_SIZE), IndexItem(b.hash, HEAD_SIZE + |ItemBytes(a)|)]
    ensures AllWritable([a, b]) && Encoded([a, b]) == ItemBytes(a) + ItemBytes(b) && TablePoints(es, [a, b])
    ensures Off([a, b], 1) == HEAD_SIZE + |ItemBytes(a)|
  {
    hide ItemBytes, Encoded;
    var its := [a, b];
    assert its[..0] == [] && its[..1] == [a] && its == [a] + [b] && [] + [a] == [a];
    NothingEncoded();
    EncodedSnoc([], a);
    EncodedSnoc([a], b);
    assert PointsAt(es[0], its, 0) && PointsAt(es[1], its, 1);
  }

  lemma NothingEncoded()
    ensures Encoded([]) == []
  {
  }

  lemma TwoEntries(e: IndexItem, f: IndexItem)
    ensures TableBytes([e, f]) == EntryBytes(e) + EntryBytes(f)
  {
    hide EntryBytes;
    var es := [e, f];
    assert es[..1] == [e] && es[..1][..0] == [];
    assert TableBytes([]) == [];
    assert TableBytes([e]) == TableBytes([]) + EntryBytes(e);
  }

  lemma {:induction false} ZeroBytes(n: nat, i: nat)
    requires i < n
    ensures LE(0, n)[i] == 0
  {
    if i > 0 {
      ZeroBytes(n - 1, i - 1);
    }
  }

  /** Two table entries read as an item: the first hash, and the seventh byte of the
      second hash for a key length. */
  lemma TableAsItem(file: seq<byte>, p: nat)
    requires p + 32 <= |file| && file[p..p + 32] == TableBytes([IndexItem(1, 16), IndexItem(2, 40)])
    ensures var r := ReadItem(file, p); r.Some? && r.value.hash == 1 && r.value.key == []
  {
    hide LE, Val;
    var e, f := IndexItem(1, 16), IndexItem(2, 40);
    TwoEntries(e, f);
    var t := file[p..p + 32];
    assert t[..8] == LE(1, 8) && t[16..24] == LE(2, 8);
    Pow256Values();
    ValLE(1, 8);
    SeventhByte();
    assert t[22] == t[16..24][6];
    SubSlice(file, p, 32, 0, 23);
    assert file[p..p + 23][..8] == t[..8];
  }

  lemma SeventhByte()
    ensures LE(2, 8)[6] == 0
  {
    assert LE(2, 8) == [2] + LE(0, 7);
    ZeroBytes(7, 5);
  }

  const A := HintItem(1, 0, 0, 1, 0, [1])
  const B := HintItem(2, 0, 256, 1, 0, [1])

  /** The file the writer makes of these two items when every item enters the table. */
  function TwoItemFile(): seq<byte> {
    MetaBytes(Meta(64, 2, 512)) + (ItemBytes(A) + ItemBytes(B)) + TableBytes([IndexItem(1, 16), IndexItem(2, 40)])
  }

  method WriteTwo() returns (fd: seq<byte>, es: seq<IndexItem>, meta: Meta)
    ensures fd == TwoItemFile() && es == [IndexItem(1, 16), IndexItem(2, 40)] && meta == Meta(64, 2, 512)
  {
    hide MetaBytes, TableBytes, Encoded, LE, PointsInto;
    var w := new FileWriter(512, 0);
    NothingEncoded();
    w.WriteItem(A);
    EncodedSnoc([], A);
    w.WriteItem(B);
    EncodedSnoc([A], B);
    assert [] + [A] == [A] && [A] + [B] == [A, B];
    es, meta := w.Close();
    fd := w.fd;
    assert [] + [IndexItem(1, 16)] + [IndexItem(2, 40)] == [IndexItem(1, 16), IndexItem(2, 40)];
  }

  /** Otherwise it may fail: with two items, both in the table, a key with a larger hash
      makes the reader take the table for items and run into the end of the file. */
  lemma MissingKeyFails()
    ensures var es, m := [IndexItem(1, 16), IndexItem(2, 40)], Meta(64, 2, 512);
            && IsFile(TwoItemFile(), [A, B], es, m) && Sorted([A, B]) && Absent([A, B], 3, [1])
            && forall j :: Searched(es, 3, j) ==>
                 Scan(TwoItemFile(), Start(es, j), HEAD_SIZE, m.indexOffset, 3, [1]) == (None, true)
  {
    hide MetaBytes, LE, Val, TableBytes, Encoded;
    var es, m := [IndexItem(1, 16), IndexItem(2, 40)], Meta(64, 2, 512);
    var its, file := [A, B], TwoItemFile();
    TwoItems(A, B, es);
    assert IsFile(file, its, es, m);
    ItemHere(file, its, es, m, 1);
    assert file[64..96] == TableBytes(es);
    TableAsItem(file, 64);
    assert Scan(file, 87, 63, 64, 3, [1]) == (None, true);
    assert Scan(file, 64, 40, 64, 3, [1]) == (None, true);
    assert Scan(file, 40, 16, 64, 3, [1]) == (None, true);
    forall j | Searched(es, 3, j)
      ensures Start(es, j) == 40
    {
    }
  }
}
