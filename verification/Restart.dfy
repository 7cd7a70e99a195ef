/**
  Opening a bucket: the tree is rebuilt from the index files, chunk by chunk and
  split by split, starting from a tree loaded from disk. The result is what a
  replay of the whole data log would give.
*/
module Restart {
  import opened Bytes
  import opened HintItems
  import opened HintChunk
  import opened HintFile
  import opened Logs
  import opened Leaf
  import opened HTree
  import opened TreeSpec
  import opened Nibbles

  // ----- replaying a log

  /** The tree entry of an index item of a chunk. */
  function Entry(it: HintItem, chunk: u16): Item {
    Item(it.ver, it.vhash, chunk, it.offset)
  }

  /** A write stores an entry, a deletion removes it. */
  function Applied(it: HintItem, chunk: u16): Option<Item> {
    if it.ver > 0 then Some(Entry(it, chunk)) else None
  }

  /** What a tree entry becomes when the items of a chunk are applied in order. */
  function Replay(s: seq<HintItem>, chunk: u16, h: u64, x: Option<Item>): Option<Item> {
    if s == [] then x
    else
      var y := Replay(s[..|s| - 1], chunk, h, x);
      if s[|s| - 1].hash == h then Applied(s[|s| - 1], chunk) else y
  }

  /** The same for chunks lo to hi of a log. */
  function ReplayLog(logs: seq<seq<HintItem>>, lo: nat, hi: nat, h: u64, x: Option<Item>): Option<Item>
    requires lo <= hi <= |logs| <= 0x1_0000
    decreases hi
  {
    if hi == lo then x else Replay(logs[hi - 1], hi - 1, h, ReplayLog(logs, lo, hi - 1, h, x))
  }

  lemma {:induction false} ReplayIsLast(s: seq<HintItem>, chunk: u16, h: u64, x: Option<Item>)
    ensures Replay(s, chunk, h, x) == match LastHash(s, h) case Some(it) => Applied(it, chunk) case None => x
  {
    if s != [] {
      ReplayIsLast(s[..|s| - 1], chunk, h, x);
    }
  }

  lemma {:induction false} ReplayConcat(a: seq<HintItem>, b: seq<HintItem>, chunk: u16, h: u64, x: Option<Item>)
    ensures Replay(a + b, chunk, h, x) == Replay(b, chunk, h, Replay(a, chunk, h, x))
  {
    if b == [] {
      assert a + b == a;
    } else {
      var m := |b| - 1;
      ReplayConcat(a, b[..m], chunk, h, x);
      assert (a + b)[..|a| + m] == a + b[..m];
    }
  }

  // ----- index files stand for the writes they were made from

  /** Distinct keys have distinct hashes. */
  ghost predicate OneKeyPerHash(s: seq<HintItem>) {
    forall a, b :: a in s && b in s && a.hash == b.hash ==> a.key == b.key
  }

  lemma {:induction false} LastHashIsLast(s: seq<HintItem>, h: u64)
    requires OneKeyPerHash(s) && LastHash(s, h).Some?
    ensures Last(s, h, LastHash(s, h).value.key) == LastHash(s, h)
  {
    var m := |s| - 1;
    if s[m].hash != h {
      assert forall a :: a in s[..m] ==> a in s;
      LastHashIsLast(s[..m], h);
    }
  }

  /** A dumped split, though sorted and stripped of overwritten items, replays like
      the writes themselves. */
  lemma DumpReplays(file: seq<HintItem>, run: seq<HintItem>, chunk: u16, h: u64, x: Option<Item>)
    requires DumpOf(file, run) && OneKeyPerHash(run)
    ensures Replay(file, chunk, h, x) == Replay(run, chunk, h, x)
  {
    hide Replay, Sorted;
    ReplayIsLast(file, chunk, h, x);
    ReplayIsLast(run, chunk, h, x);
    if LastHash(file, h).Some? {
      LastHashHas(run, LastHash(file, h).value);
    }
    if LastHash(run, h).Some? {
      LastHashIsLast(run, h);
      LastHashHas(file, LastHash(run, h).value);
    }
  }

  /** The files of a chunk, one per run of writes. */
  ghost predicate FilesOf(files: seq<seq<HintItem>>, runs: seq<seq<HintItem>>) {
    |files| == |runs| && forall j :: 0 <= j < |files| ==> DumpOf(files[j], runs[j])
  }

  lemma {:induction false} FilesReplay(files: seq<seq<HintItem>>, runs: seq<seq<HintItem>>, chunk: u16, h: u64,
                                       x: Option<Item>)
    requires FilesOf(files, runs) && OneKeyPerHash(Flat(runs))
    ensures Replay(Flat(files), chunk, h, x) == Replay(Flat(runs), chunk, h, x)
  {
    hide DumpOf;
    if files != [] {
      var m := |files| - 1;
      assert FilesOf(files[..m], runs[..m]);
      assert OneKeyPerHash(Flat(runs[..m])) && OneKeyPerHash(runs[m]);
      FilesReplay(files[..m], runs[..m], chunk, h, x);
      ReplayConcat(Flat(files[..m]), files[m], chunk, h, x);
      ReplayConcat(Flat(runs[..m]), runs[m], chunk, h, x);
      DumpReplays(files[m], runs[m], chunk, h, Replay(Flat(runs[..m]), chunk, h, x));
    }
  }

  // ----- the code

  ghost predicate Fits(tree: Tree, s: seq<HintItem>) {
    forall it :: it in s ==> tree.Mine(it.hash) && it.offset % 256 == 0
  }

  /** The bytes of an index file that holds these items. */
  ghost predicate Stored(fd: seq<byte>, file: seq<HintItem>) {
    exists es, m :: IsFile(fd, file, es, m)
  }

  ghost predicate AllStored(fds: seq<seq<byte>>, files: seq<seq<HintItem>>) {
    |fds| == |files| && forall j :: 0 <= j < |fds| ==> Stored(fds[j], files[j])
  }

  /** One item of an index file applied to the tree. */
  method ApplyItem(tree: Tree, chunkID: u16, item: HintItem, junk: seq<byte>)
    requires tree.Valid() && tree.Mine(item.hash) && item.offset % 256 == 0 && |junk| == tree.sh.KHashLen() + ITEM_SIZE
    modifies tree
    ensures tree.Valid()
    ensures forall h: u64 :: tree.Find(h) == if h == item.hash then Applied(item, chunkID) else old(tree.Find(h))
  {
    hide NodesOk, LeavesOk, Sized, FindIn, HasPrefix;
    if item.ver > 0 {
      tree.Set(item.hash, Item(item.ver, item.vhash, chunkID, item.offset), junk);
    } else {
      tree.Remove(item.hash, true, item.offset);
    }
  }

  /** updateHtreeFromHint: one index file read and applied to the tree. */
  method UpdateHtreeFromHint(tree: Tree, chunkID: u16, fd: seq<byte>, junk: seq<byte>, ghost file: seq<HintItem>)
    requires tree.Valid() && Stored(fd, file) && Fits(tree, file) && |junk| == tree.sh.KHashLen() + ITEM_SIZE
    modifies tree
    ensures tree.Valid()
    ensures forall h: u64 :: tree.Find(h) == Replay(file, chunkID, h, old(tree.Find(h)))
  {
    hide NodesOk, LeavesOk, Sized, FindIn, HasPrefix, IsFile, Off, ReadItem, LoadMeta;
    ghost var es, m :| IsFile(fd, file, es, m);
    FileShape(fd, file, es, m);
    var indexOffset := LoadMeta(fd).indexOffset;
    var pos: nat, offset: nat := HEAD_SIZE, HEAD_SIZE;
    ghost var i: nat := 0;
    assert file[..0] == [];
    while offset < indexOffset
      invariant tree.Valid() && i <= |file| && pos == offset == Off(file, i)
      invariant forall h: u64 :: tree.Find(h) == Replay(file[..i], chunkID, h, old(tree.Find(h)))
      decreases |file| - i
    {
      AtEnd(fd, file, es, m, i);
      ItemHere(fd, file, es, m, i);
      var item := ReadItem(fd, pos).value;
      assert file[..i + 1][..i] == file[..i];
      assert item in file;
      ApplyItem(tree, chunkID, item, junk);
      pos, offset := pos + ITEM_HEAD_SIZE + |item.key|, offset + ITEM_HEAD_SIZE + |item.key|;
      i := i + 1;
    }
    AtEnd(fd, file, es, m, i);
    assert file[..|file|] == file;
  }

  lemma FileShape(fd: seq<byte>, file: seq<HintItem>, es: seq<IndexItem>, m: Meta)
    requires IsFile(fd, file, es, m)
    ensures AllWritable(file) && |fd| >= HEAD_SIZE && LoadMeta(fd).indexOffset == m.indexOffset
            && Off(file, 0) == HEAD_SIZE
  {
    hide LoadMeta, MetaBytes, TableBytes, Encoded;
    MetaRoundTrip(m, fd);
    AtHead(file);
  }

  lemma AtEnd(fd: seq<byte>, file: seq<HintItem>, es: seq<IndexItem>, m: Meta, i: nat)
    requires IsFile(fd, file, es, m) && i <= |file|
    ensures Off(file, i) < m.indexOffset <==> i < |file|
  {
    hide ReadItem, Encoded;
    if i < |file| {
      ItemHere(fd, file, es, m, i);
    } else {
      assert file[..i] == file;
    }
  }

  /** The replay loop of open, from the tree's own position on. A chunk whose files
      the loaded tree already reflects is passed over; the others are applied from
      their first file. */
  method ApplyHints(tree: Tree, fds: seq<seq<seq<byte>>>, treeChunk: nat, treeSplit: int, junk: seq<byte>,
                    ghost hints: seq<seq<seq<HintItem>>>)
    requires tree.Valid() && |junk| == tree.sh.KHashLen() + ITEM_SIZE
    requires treeChunk <= |fds| == |hints| <= 0x1_0000 && -1 <= treeSplit
    requires forall c :: 0 <= c < |fds| ==> AllStored(fds[c], hints[c]) && Fits(tree, Flat(hints[c]))
    modifies tree
    ensures tree.Valid()
    ensures forall h: u64 :: tree.Find(h) ==
              ReplayLog(Flats(hints), FirstApplied(hints, treeChunk, treeSplit), |hints|, h, old(tree.Find(h)))
  {
    hide NodesOk, LeavesOk, Sized, FindIn, Replay, Fits, Flat, HasPrefix, Stored;
    ghost var first := FirstApplied(hints, treeChunk, treeSplit);
    for i := treeChunk to |fds|
      invariant tree.Valid()
      invariant forall h: u64 :: tree.Find(h) ==
                  if i < first then old(tree.Find(h)) else ReplayLog(Flats(hints), first, i, h, old(tree.Find(h)))
    {
      var startsp := if i == treeChunk then treeSplit + 1 else 0;
      if startsp >= |fds[i]| {
        if i >= first {
          EmptyChunk(hints, i, first);
        }
        continue;
      }
      UpdateFromFiles(tree, i, fds[i], junk, hints[i]);
    }
  }

  /** The chunk from which open applies files. */
  ghost function FirstApplied(hints: seq<seq<seq<HintItem>>>, treeChunk: nat, treeSplit: int): (n: nat)
    requires treeChunk <= |hints| && -1 <= treeSplit
    ensures treeChunk <= n <= |hints|
  {
    if treeChunk < |hints| && treeSplit + 1 >= |hints[treeChunk]| then treeChunk + 1 else treeChunk
  }

  ghost function Flats(hints: seq<seq<seq<HintItem>>>): (s: seq<seq<HintItem>>)
    ensures |s| == |hints|
  {
    seq(|hints|, c requires 0 <= c < |hints| => Flat(hints[c]))
  }

  lemma EmptyChunk(hints: seq<seq<seq<HintItem>>>, i: nat, first: nat)
    requires first <= i < |hints| <= 0x1_0000 && hints[i] == []
    ensures forall h: u64, x :: ReplayLog(Flats(hints), first, i + 1, h, x) == ReplayLog(Flats(hints), first, i, h, x)
  {
  }

  /** All files of one chunk. */
  method UpdateFromFiles(tree: Tree, chunkID: u16, fds: seq<seq<byte>>, junk: seq<byte>,
                         ghost files: seq<seq<HintItem>>)
    requires tree.Valid() && AllStored(fds, files) && Fits(tree, Flat(files))
    requires |junk| == tree.sh.KHashLen() + ITEM_SIZE
    modifies tree
    ensures tree.Valid()
    ensures forall h: u64 :: tree.Find(h) == Replay(Flat(files), chunkID, h, old(tree.Find(h)))
  {
    hide NodesOk, LeavesOk, Sized, FindIn, HasPrefix, Fits, Stored;
    Nothing(files);
    for j := 0 to |fds|
      invariant tree.Valid()
      invariant forall h: u64 :: tree.Find(h) == Replay(Flat(files[..j]), chunkID, h, old(tree.Find(h)))
    {
      FilePart(tree, files, j);
      UpdateHtreeFromHint(tree, chunkID, fds[j], junk, files[j]);
      NextFile(files, j, chunkID);
    }
    assert files[..|files|] == files;
  }

  lemma Nothing(files: seq<seq<HintItem>>)
    ensures files[..0] == [] && Flat(files[..0]) == []
  {
  }

  lemma NextFile(files: seq<seq<HintItem>>, j: nat, chunkID: u16)
    requires j < |files|
    ensures forall h: u64, x ::
              Replay(Flat(files[..j + 1]), chunkID, h, x) ==
              Replay(files[j], chunkID, h, Replay(Flat(files[..j]), chunkID, h, x))
  {
    assert files[..j + 1][..j] == files[..j];
    forall h: u64, x
      ensures Replay(Flat(files[..j + 1]), chunkID, h, x) ==
              Replay(files[j], chunkID, h, Replay(Flat(files[..j]), chunkID, h, x))
    {
      ReplayConcat(Flat(files[..j]), files[j], chunkID, h, x);
    }
  }

  lemma FilePart(tree: Tree, files: seq<seq<HintItem>>, j: nat)
    requires j < |files| && Fits(tree, Flat(files))
    ensures Fits(tree, files[j])
  {
    forall it | it in files[j]
      ensures it in Flat(files)
    {
      InFlat(files, j, it);
    }
  }

  // ----- restart is replay

  function Live(x: Option<Item>): Option<Item> {
    if x.Some? && x.value.ver > 0 then x else None
  }

  /** A part of the log that a loaded tree may stand for: all of it up to a point, and
      at least the files the tree is named after. */
  ghost predicate Reflects(cut: seq<seq<HintItem>>, runs: seq<seq<seq<HintItem>>>, treeChunk: nat, treeSplit: int) {
    && treeChunk < |cut| <= |runs| && -1 <= treeSplit
    && (forall c :: 0 <= c < |cut| ==> cut[c] <= Flat(runs[c]))
    && (forall c :: 0 <= c < treeChunk ==> cut[c] == Flat(runs[c]))
    && (var n := if treeSplit + 1 < |runs[treeChunk]| then treeSplit + 1 else |runs[treeChunk]|;
        Flat(runs[treeChunk][..n]) <= cut[treeChunk])
  }

  ghost predicate HashIn(logs: seq<seq<HintItem>>, lo: nat, hi: nat, h: u64)
    requires hi <= |logs|
  {
    exists c :: lo <= c < hi && LastHash(logs[c], h).Some?
  }

  /** Chunks that hold a hash decide its entry; others leave it alone. */
  lemma {:induction false} Decides(logs: seq<seq<HintItem>>, lo: nat, hi: nat, h: u64, x: Option<Item>, y: Option<Item>)
    requires lo <= hi <= |logs| <= 0x1_0000
    ensures if HashIn(logs, lo, hi, h) then ReplayLog(logs, lo, hi, h, x) == ReplayLog(logs, lo, hi, h, y)
            else ReplayLog(logs, lo, hi, h, x) == x
    decreases hi
  {
    hide Replay, LastHash;
    if lo < hi {
      Decides(logs, lo, hi - 1, h, x, y);
      ReplayIsLast(logs[hi - 1], hi - 1, h, ReplayLog(logs, lo, hi - 1, h, x));
      ReplayIsLast(logs[hi - 1], hi - 1, h, ReplayLog(logs, lo, hi - 1, h, y));
    }
  }

  lemma {:induction false} ReplaySplit(logs: seq<seq<HintItem>>, lo: nat, mid: nat, hi: nat, h: u64, x: Option<Item>)
    requires lo <= mid <= hi <= |logs| <= 0x1_0000
    ensures ReplayLog(logs, lo, hi, h, x) == ReplayLog(logs, mid, hi, h, ReplayLog(logs, lo, mid, h, x))
    decreases hi
  {
    hide Replay;
    if mid < hi {
      ReplaySplit(logs, lo, mid, hi - 1, h, x);
    }
  }

  lemma {:induction false} LiveReplay(logs: seq<seq<HintItem>>, lo: nat, hi: nat, h: u64, x: Option<Item>)
    requires lo <= hi <= |logs| <= 0x1_0000
    ensures Live(ReplayLog(logs, lo, hi, h, x)) == ReplayLog(logs, lo, hi, h, Live(x))
    decreases hi
  {
    hide Replay, LastHash;
    if lo < hi {
      LiveReplay(logs, lo, hi - 1, h, x);
      ReplayIsLast(logs[hi - 1], hi - 1, h, ReplayLog(logs, lo, hi - 1, h, x));
      ReplayIsLast(logs[hi - 1], hi - 1, h, ReplayLog(logs, lo, hi - 1, h, Live(x)));
    }
  }

  /** A longer part of the log gives the same where it adds nothing about a hash. */
  lemma {:induction false} CutSame(cut: seq<seq<HintItem>>, logs: seq<seq<HintItem>>, f: nat, m: nat, h: u64)
    requires f <= m <= |cut| <= |logs| <= 0x1_0000
    requires forall c :: 0 <= c < f ==> cut[c] == logs[c]
    requires forall c :: f <= c < m ==> LastHash(cut[c], h).None?
    ensures ReplayLog(cut, 0, m, h, None) == ReplayLog(logs, 0, f, h, None)
    decreases m
  {
    hide Replay, LastHash;
    if m > f {
      CutSame(cut, logs, f, m - 1, h);
      ReplayIsLast(cut[m - 1], m - 1, h, ReplayLog(cut, 0, m - 1, h, None));
    } else if m > 0 {
      CutSame(cut, logs, f - 1, m - 1, h);
    }
  }

  lemma PrefixHash(a: seq<HintItem>, b: seq<HintItem>, h: u64)
    requires a <= b && LastHash(a, h).Some?
    ensures LastHash(b, h).Some?
  {
    LastHashHas(b, LastHash(a, h).value);
  }

  lemma {:induction false} FilesReplayLog(hints: seq<seq<seq<HintItem>>>, runs: seq<seq<seq<HintItem>>>, lo: nat,
                                          hi: nat, h: u64, x: Option<Item>)
    requires |hints| == |runs| <= 0x1_0000 && lo <= hi <= |hints|
    requires forall c :: 0 <= c < |hints| ==> FilesOf(hints[c], runs[c]) && OneKeyPerHash(Flat(runs[c]))
    ensures ReplayLog(Flats(hints), lo, hi, h, x) == ReplayLog(Flats(runs), lo, hi, h, x)
    decreases hi
  {
    hide Replay, FilesOf, OneKeyPerHash, Flat;
    if lo < hi {
      FilesReplayLog(hints, runs, lo, hi - 1, h, x);
      FilesReplay(hints[hi - 1], runs[hi - 1], hi - 1, h, ReplayLog(Flats(runs), lo, hi - 1, h, x));
    }
  }

  /** Applying the files from the tree's position on, though some of them are already
      in the tree, gives the entries that a replay of the whole log gives. */
  lemma RestartIsReplay(hints: seq<seq<seq<HintItem>>>, runs: seq<seq<seq<HintItem>>>, treeChunk: nat, treeSplit: int,
                        cut: seq<seq<HintItem>>, h: u64, x: Option<Item>)
    requires |hints| == |runs| <= 0x1_0000 && Reflects(cut, runs, treeChunk, treeSplit)
    requires forall c :: 0 <= c < |hints| ==> FilesOf(hints[c], runs[c]) && OneKeyPerHash(Flat(runs[c]))
    requires Live(x) == ReplayLog(cut, 0, |cut|, h, None)
    ensures Live(ReplayLog(Flats(hints), FirstApplied(hints, treeChunk, treeSplit), |hints|, h, x))
         == ReplayLog(Flats(runs), 0, |runs|, h, None)
  {
    hide ReplayLog, OneKeyPerHash, LastHash, DumpOf, Flat, Flats, Live, HashIn;
    var f, n, logs := FirstApplied(hints, treeChunk, treeSplit), |runs|, Flats(runs);
    FilesReplayLog(hints, runs, f, n, h, x);
    LiveReplay(logs, f, n, h, x);
    ReplaySplit(logs, 0, f, n, h, None);
    var y := ReplayLog(logs, 0, f, h, None);
    Decides(logs, f, n, h, Live(x), y);
    Decides(logs, f, n, h, y, y);
    if !HashIn(logs, f, n, h) {
      CutIsEnough(hints, runs, treeChunk, treeSplit, cut, h);
    }
  }

  lemma CutIsEnough(hints: seq<seq<seq<HintItem>>>, runs: seq<seq<seq<HintItem>>>, treeChunk: nat, treeSplit: int,
                    cut: seq<seq<HintItem>>, h: u64)
    requires |hints| == |runs| <= 0x1_0000 && Reflects(cut, runs, treeChunk, treeSplit)
    requires |hints[treeChunk]| == |runs[treeChunk]|
    requires !HashIn(Flats(runs), FirstApplied(hints, treeChunk, treeSplit), |runs|, h)
    ensures ReplayLog(cut, 0, |cut|, h, None) == ReplayLog(Flats(runs), 0, FirstApplied(hints, treeChunk, treeSplit),
            h, None)
  {
    hide ReplayLog, LastHash, Flat;
    var f, logs := FirstApplied(hints, treeChunk, treeSplit), Flats(runs);
    WholeChunk(hints[treeChunk], runs[treeChunk], treeSplit, cut[treeChunk]);
    forall c | f <= c < |cut|
      ensures LastHash(cut[c], h).None?
    {
      assert LastHash(logs[c], h).None?;
      if LastHash(cut[c], h).Some? {
        PrefixHash(cut[c], logs[c], h);
      }
    }
    CutSame(cut, logs, f, |cut|, h);
  }

  /** A chunk that is passed over is in the tree as a whole. */
  lemma WholeChunk(files: seq<seq<HintItem>>, runs: seq<seq<HintItem>>, treeSplit: int, cut: seq<HintItem>)
    requires |files| == |runs| && -1 <= treeSplit && cut <= Flat(runs)
    requires var n := if treeSplit + 1 < |runs| then treeSplit + 1 else |runs|; Flat(runs[..n]) <= cut
    ensures treeSplit + 1 >= |files| ==> cut == Flat(runs)
  {
    assert runs[..|runs|] == runs;
  }

  /** Opening a bucket over a loaded tree: the live entries are those of the whole log. */
  method Reopen(tree: Tree, fds: seq<seq<seq<byte>>>, treeChunk: nat, treeSplit: int, junk: seq<byte>,
                ghost hints: seq<seq<seq<HintItem>>>, ghost runs: seq<seq<seq<HintItem>>>,
                  ghost cut: seq<seq<HintItem>>)
    requires tree.Valid() && |junk| == tree.sh.KHashLen() + ITEM_SIZE
    requires |fds| == |hints| == |runs| <= 0x1_0000 && Reflects(cut, runs, treeChunk, treeSplit)
    requires forall c :: 0 <= c < |fds| ==> AllStored(fds[c], hints[c]) && Fits(tree, Flat(hints[c]))
    requires forall c :: 0 <= c < |hints| ==> FilesOf(hints[c], runs[c]) && OneKeyPerHash(Flat(runs[c]))
    requires forall h: u64 :: Live(tree.Find(h)) == ReplayLog(cut, 0, |cut|, h, None)
    modifies tree
    ensures tree.Valid()
    ensures forall h: u64 :: Live(tree.Find(h)) == ReplayLog(Flats(runs), 0, |runs|, h, None)
  {
    hide NodesOk, LeavesOk, Sized, FindIn, ReplayLog, Fits, FilesOf, OneKeyPerHash, Flat, Live, Reflects, AllStored;
    Within(cut, runs, treeChunk, treeSplit);
    ApplyHints(tree, fds, treeChunk, treeSplit, junk, hints);
    forall h: u64
      ensures Live(tree.Find(h)) == ReplayLog(Flats(runs), 0, |runs|, h, None)
    {
      RestartIsReplay(hints, runs, treeChunk, treeSplit, cut, h, old(tree.Find(h)));
    }
  }

  lemma Within(cut: seq<seq<HintItem>>, runs: seq<seq<seq<HintItem>>>, treeChunk: nat, treeSplit: int)
    requires Reflects(cut, runs, treeChunk, treeSplit)
    ensures treeChunk < |cut| <= |runs| && -1 <= treeSplit
  {
  }
}
