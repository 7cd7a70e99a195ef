/**
  A bucket written to disk and opened again: its index dumped to files, the files
  read into a new tree. The tree then holds the live part of what the bucket's own
  tree held.
*/
module BucketRestart {
  import opened Bytes
  import opened Logs
  import opened Records
  import opened DataStore
  import opened HintItems
  import opened HintBuffer
  import opened HintChunk
  import opened HintFile
  import opened HintDump
  import opened HintMgr
  import opened Collision
  import opened Nibbles
  import opened Leaf
  import opened TreeSpec
  import opened HTree
  import opened Restart
  import opened TreeDump
  import opened Writes
  import opened Bucket

  // ----- the index of a history replays to its last writes

  /** The index of a history, chunk by chunk. */
  ghost function IndexOf(hash: KeyHash, ws: seq<Write>, n: nat): (logs: seq<seq<HintItem>>)
    ensures |logs| == n
  {
    seq(n, c requires 0 <= c < n => HintsOf(hash, ws, c))
  }

  lemma {:induction false} OneMoreWrite(hash: KeyHash, ws: seq<Write>, w: Write, n: nat, hi: nat, h: u64)
    requires hi <= n <= 0x1_0000 && forall i :: 0 <= i < |ws| ==> Pos(ws[i]) < Pos(w)
    ensures ReplayLog(IndexOf(hash, ws + [w], n), 0, hi, h, None) ==
            if w.chunk < hi && hash(w.rec.key) == h then Applied(HintOf(hash, w), w.chunk)
            else ReplayLog(IndexOf(hash, ws, n), 0, hi, h, None)
    decreases hi
  {
    hide HintsOf, Pos;
    if hi > 0 {
      var c := hi - 1;
      OneMoreWrite(hash, ws, w, n, c, h);
      HintsSnoc(hash, ws, w, c);
      if c == w.chunk {
        ReplaySnoc(HintsOf(hash, ws, c), HintOf(hash, w), c, h, ReplayLog(IndexOf(hash, ws, n), 0, c, h, None));
      } else if c > w.chunk {
        IndexAfter(hash, ws, w, w.rec.key, c);
      }
    }
  }

  lemma ReplaySnoc(s: seq<HintItem>, it: HintItem, chunk: u16, h: u64, x: Option<Item>)
    ensures Replay(s + [it], chunk, h, x) == if it.hash == h then Applied(it, chunk) else Replay(s, chunk, h, x)
  {
    assert (s + [it])[..|s|] == s;
  }

  /** Replaying the index of a history gives the live part of the tree's entries. */
  lemma {:induction false} IndexReplays(hash: KeyHash, ws: seq<Write>, n: nat, h: u64)
    requires Rising(ws) && n <= 0x1_0000 && forall i :: 0 <= i < |ws| ==> ws[i].chunk < n
    ensures ReplayLog(IndexOf(hash, ws, n), 0, n, h, None) == Live(TreeEntry(hash, ws, h))
  {
    if ws == [] {
      NothingIndexed(hash, n, n, h);
    } else {
      hide Pos;
      var m := |ws| - 1;
      IndexReplays(hash, ws[..m], n, h);
      OneMoreWrite(hash, ws[..m], ws[m], n, n, h);
      assert ws == ws[..m] + [ws[m]];
    }
  }

  lemma {:induction false} NothingIndexed(hash: KeyHash, n: nat, hi: nat, h: u64)
    requires hi <= n <= 0x1_0000
    ensures ReplayLog(IndexOf(hash, [], n), 0, hi, h, None) == None
    decreases hi
  {
    if hi > 0 {
      NothingIndexed(hash, n, hi - 1, h);
    }
  }

  // ----- dumping a chunk's index

  ghost predicate Dumpable(s: seq<HintItem>) {
    forall it :: it in s ==> Writable(it)
  }

  /** What a dumped chunk leaves: files, and the runs of writes they were made from. */
  ghost predicate Dumped(fds: seq<seq<byte>>, files: seq<seq<HintItem>>, runs: seq<seq<HintItem>>) {
    AllStored(fds, files) && FilesOf(files, runs)
  }

  /** The splits of a chunk that hold anything are dumped. */
  method DumpChunk(ck: HintChunk, interval: int)
    returns (fds: seq<seq<byte>>, ghost files: seq<seq<HintItem>>, ghost runs: seq<seq<HintItem>>)
    requires ck.Valid() && ck.splitCap <= MAX_ITEMS && Dumpable(Flat(ck.runs))
    ensures Dumped(fds, files, runs) && Flat(runs) == Flat(ck.runs)
  {
    hide HintBuffer.Valid, DumpOf, IsFile, Dumpable;
    fds, files, runs := [], [], [];
    assert ck.runs[..0] == [];
    for i := 0 to |ck.splits|
      invariant Dumped(fds, files, runs) && Flat(runs) == Flat(ck.runs[..i])
    {
      var b := ck.splits[i];
      FlatNext(ck.runs, i);
      BufferFits(b, ck.runs, i);
      if |b.items| > 0 {
        var fd, es, meta, file := HintDump.Dump(b, interval);
        StoredNow(fd, file, es, meta);
        FlatSnoc(runs, b.run);
        fds, files, runs := fds + [fd], files + [file], runs + [b.run];
      } else {
        assert Flat(ck.runs[..i]) + [] == Flat(ck.runs[..i]);
      }
    }
    assert ck.runs[..|ck.splits|] == ck.runs;
  }

  lemma StoredNow(fd: seq<byte>, file: seq<HintItem>, es: seq<IndexItem>, meta: Meta)
    requires IsFile(fd, file, es, meta)
    ensures Restart.Stored(fd, file)
  {
  }

  lemma BufferFits(b: HintBuffer, runs: seq<seq<HintItem>>, i: nat)
    requires b.Valid() && b.splitCap <= MAX_ITEMS && i < |runs| && b.run == runs[i] && Dumpable(Flat(runs))
    ensures |b.items| <= MAX_ITEMS && AllWritable(b.items) && (|b.items| == 0 ==> b.run == [])
  {
    hide Last, Indexes;
    InRange(b.index, b.collisions, b.items);
    forall j | 0 <= j < |b.items|
      ensures Writable(b.items[j])
    {
      var it := b.items[j];
      assert Last(b.run, it.hash, it.key) == Some(it);
      InFlat(runs, i, it);
    }
    if b.run != [] {
      SomeItem(b.items, b.run);
    }
  }

  lemma SomeItem(items: seq<HintItem>, run: seq<HintItem>)
    requires Mirrors(items, run) && run != []
    ensures items != []
  {
    assert run[0] in run;
  }

  // ----- the whole bucket

  /** Distinct written keys have distinct hashes. */
  ghost predicate DistinctHashes(hash: KeyHash, ws: seq<Write>) {
    forall v, w :: v in ws && w in ws && hash(v.rec.key) == hash(w.rec.key) ==> v.rec.key == w.rec.key
  }

  lemma {:induction false} HintFrom(hash: KeyHash, ws: seq<Write>, c: nat, it: HintItem) returns (w: Write)
    requires it in HintsOf(hash, ws, c)
    ensures w in ws && it == HintOf(hash, w)
  {
    var m := |ws| - 1;
    if ws[m].chunk == c && it == HintOf(hash, ws[m]) {
      w := ws[m];
    } else {
      w := HintFrom(hash, ws[..m], c, it);
    }
  }

  /** The items of a history can be written, fit the tree, and have one key per hash. */
  lemma HintsFit(hash: KeyHash, bp: seq<nat>, ws: seq<Write>, c: nat)
    requires Routed(hash, bp, ws) && DistinctHashes(hash, ws)
    ensures Dumpable(HintsOf(hash, ws, c)) && OneKeyPerHash(HintsOf(hash, ws, c))
    ensures forall it :: it in HintsOf(hash, ws, c) ==> HasPrefix(it.hash, bp) && it.offset % 256 == 0
  {
    hide HintsOf, HasPrefix;
    var s := HintsOf(hash, ws, c);
    forall it | it in s
      ensures Writable(it) && HasPrefix(it.hash, bp) && it.offset % 256 == 0
    {
      var w := HintFrom(hash, ws, c, it);
    }
    forall x, y | x in s && y in s && x.hash == y.hash
      ensures x.key == y.key
    {
      var v := HintFrom(hash, ws, c, x);
      var w := HintFrom(hash, ws, c, y);
    }
  }

  /** Files hold no more than what they were made from. */
  lemma {:induction false} FileItems(files: seq<seq<HintItem>>, runs: seq<seq<HintItem>>, it: HintItem)
    requires FilesOf(files, runs) && it in Flat(files)
    ensures it in Flat(runs)
  {
    var m := |files| - 1;
    if it !in files[m] {
      FileItems(files[..m], runs[..m], it);
    } else {
      assert DumpOf(files[m], runs[m]);
    }
  }

  lemma FilesFit(tree: Tree, files: seq<seq<HintItem>>, runs: seq<seq<HintItem>>)
    requires FilesOf(files, runs)
    requires forall it :: it in Flat(runs) ==> HasPrefix(it.hash, tree.bp) && it.offset % 256 == 0
    ensures Fits(tree, Flat(files))
  {
    hide HasPrefix, FilesOf;
    forall it | it in Flat(files)
      ensures tree.Mine(it.hash) && it.offset % 256 == 0
    {
      FileItems(files, runs, it);
    }
  }

  /** All chunks up to n are dumped. */
  ghost predicate AllDumped(fds: seq<seq<seq<byte>>>, files: seq<seq<seq<HintItem>>>, runs: seq<seq<seq<HintItem>>>,
                            hash: KeyHash, ws: seq<Write>) {
    && |fds| == |files| == |runs|
    && forall c :: 0 <= c < |fds| ==> Dumped(fds[c], files[c], runs[c]) && Flat(runs[c]) == HintsOf(hash, ws, c)
  }

  method DumpAll(bkt: Bucket, interval: int)
    returns (fds: seq<seq<seq<byte>>>, ghost files: seq<seq<seq<HintItem>>>, ghost runs: seq<seq<seq<HintItem>>>)
    requires bkt.Valid() && DistinctHashes(bkt.hash, bkt.writes)
    requires forall c :: 0 <= c < |bkt.hints.chunks| ==> bkt.hints.chunks[c].splitCap <= MAX_ITEMS
    ensures |fds| == MAX_NUM_CHUNK && AllDumped(fds, files, runs, bkt.hash, bkt.writes)
  {
    hide LeavesOk, NodesOk, Sized, FindIn, HasPrefix, LogInv, AllInLog, Rising, TableAgrees, TableOk, HintsOf,
      TreeEntry,
         HintChunk.Valid, Dumped, Routed, DistinctHashes;
    fds, files, runs := [], [], [];
    for c := 0 to |bkt.hints.chunks|
      invariant |fds| == c && AllDumped(fds, files, runs, bkt.hash, bkt.writes)
    {
      HintsFit(bkt.hash, bkt.tree.bp, bkt.writes, c);
      var f, g, r := DumpChunk(bkt.hints.chunks[c], interval);
      fds, files, runs := fds + [f], files + [g], runs + [r];
    }
  }

  /** Dumped and opened again without a tree file, the bucket has for every hash the live part
      of what its tree had. */
  method DumpAndReopen(bkt: Bucket, interval: int, junk: seq<byte>) returns (tree: Tree)
    requires bkt.Valid() && DistinctHashes(bkt.hash, bkt.writes)
    requires forall c :: 0 <= c < |bkt.hints.chunks| ==> bkt.hints.chunks[c].splitCap <= MAX_ITEMS
    requires |junk| == bkt.tree.sh.KHashLen() + ITEM_SIZE
    ensures tree.Valid()
    ensures forall h: u64 :: Live(tree.Find(h)) == Live(TreeEntry(bkt.hash, bkt.writes, h)) == Live(bkt.tree.Find(h))
  {
    hide LeavesOk, NodesOk, Sized, FindIn, HasPrefix, LogInv, Rising, TableAgrees, TableOk, HintsOf, TreeEntry,
         HintChunk.Valid, Dumped, Routed, DistinctHashes, ReplayLog, AllDumped, Consistent, HintMgr.Valid, Live, Fits;
    var fds;
    ghost var files, runs;
    fds, files, runs := DumpAll(bkt, interval);
    tree := new Tree(bkt.tree.sh, bkt.tree.bp);
    Ready(bkt.hash, bkt.writes, tree, fds, files, runs);
    Blank(runs);
    forall h: u64
      ensures Live(tree.Find(h)) == ReplayLog([[]], 0, 1, h, None)
    {
      NothingYet(h);
    }
    Reopen(tree, fds, 0, -1, junk, files, runs, [[]]);
    forall h: u64
      ensures Live(tree.Find(h)) == Live(TreeEntry(bkt.hash, bkt.writes, h))
    {
      Whole(bkt.hash, bkt.data, bkt.hints.logs, bkt.ct.items, bkt.writes, fds, files, runs, h);
    }
  }

  /** The file that was dumped last, by chunk and split; before the first chunk's first if
      nothing was. */
  method LastDumped(fds: seq<seq<seq<byte>>>) returns (chunk: nat, split: int)
    requires |fds| > 0
    ensures chunk < |fds| && split == |fds[chunk]| - 1
    ensures (forall c :: chunk < c < |fds| ==> fds[c] == []) && (chunk > 0 ==> fds[chunk] != [])
  {
    chunk, split := 0, |fds[0]| - 1;
    for c := 1 to |fds|
      invariant chunk < c && split == |fds[chunk]| - 1 && (chunk > 0 ==> fds[chunk] != [])
      invariant forall d :: chunk < d < c ==> fds[d] == []
    {
      if |fds[c]| > 0 {
        chunk, split := c, |fds[c]| - 1;
      }
    }
  }

  /** A whole log reflects every file made from it. */
  lemma AllReflected(runs: seq<seq<seq<HintItem>>>, chunk: nat, split: int)
    requires chunk < |runs| && -1 <= split
    ensures Reflects(Flats(runs), runs, chunk, split)
  {
    hide Flat;
    var n := if split + 1 < |runs[chunk]| then split + 1 else |runs[chunk]|;
    FlatCut(runs[chunk], n);
  }

  /** A normal shutdown and start: the index is dumped, the tree is dumped and named after
      the last index file, the tree is loaded, and files from its position on are applied.
      The tree has for every hash the live part of what it had. */
  method CloseAndOpen(bkt: Bucket, interval: int, junk: seq<byte>) returns (tree: Tree)
    requires bkt.Valid() && DistinctHashes(bkt.hash, bkt.writes) && Short(bkt.tree.leafs)
    requires forall c :: 0 <= c < |bkt.hints.chunks| ==> bkt.hints.chunks[c].splitCap <= MAX_ITEMS
    requires |junk| == bkt.tree.sh.KHashLen() + ITEM_SIZE
    ensures tree.Valid()
    ensures forall h: u64 :: Live(tree.Find(h)) == Live(TreeEntry(bkt.hash, bkt.writes, h)) == Live(bkt.tree.Find(h))
  {
    hide LeavesOk, NodesOk, Sized, FindIn, HasPrefix, LogInv, Rising, TableAgrees, TableOk, HintsOf, TreeEntry,
         HintChunk.Valid, Dumped, Routed, DistinctHashes, ReplayLog, AllDumped, Consistent, HintMgr.Valid, Live, Fits,
         Reflects, Flats, Short;
    var fds;
    ghost var files, runs;
    fds, files, runs := DumpAll(bkt, interval);
    var chunk, split := LastDumped(fds);
    tree := Reload(bkt.tree);
    Ready(bkt.hash, bkt.writes, tree, fds, files, runs);
    AllReflected(runs, chunk, split);
    forall h: u64
      ensures ReplayLog(Flats(runs), 0, |runs|, h, None) == Live(TreeEntry(bkt.hash, bkt.writes, h))
    {
      Whole(bkt.hash, bkt.data, bkt.hints.logs, bkt.ct.items, bkt.writes, fds, files, runs, h);
    }
    Reopen(tree, fds, chunk, split, junk, files, runs, Flats(runs));
  }

  lemma NothingYet(h: u64)
    ensures ReplayLog([[]], 0, 1, h, None) == None == Live(None)
  {
  }

  lemma Blank(runs: seq<seq<seq<HintItem>>>)
    requires |runs| > 0
    ensures Reflects([[]], runs, 0, -1)
  {
    assert runs[0][..0] == [];
  }

  lemma Ready(hash: KeyHash, ws: seq<Write>, tree: Tree,
              fds: seq<seq<seq<byte>>>, files: seq<seq<seq<HintItem>>>, runs: seq<seq<seq<HintItem>>>)
    requires AllDumped(fds, files, runs, hash, ws) && Routed(hash, tree.bp, ws) && DistinctHashes(hash, ws)
    ensures |fds| == |files| == |runs|
    ensures forall c :: 0 <= c < |fds| ==> AllStored(fds[c], files[c]) && Fits(tree, Flat(files[c]))
    ensures forall c :: 0 <= c < |fds| ==> FilesOf(files[c], runs[c]) && OneKeyPerHash(Flat(runs[c]))
  {
    hide HintsOf, HasPrefix, Fits, AllStored, FilesOf, OneKeyPerHash, Dumpable, Routed, DistinctHashes, Flat;
    forall c | 0 <= c < |fds|
      ensures AllStored(fds[c], files[c]) && Fits(tree, Flat(files[c]))
      ensures FilesOf(files[c], runs[c]) && OneKeyPerHash(Flat(runs[c]))
    {
      assert Dumped(fds[c], files[c], runs[c]);
      HintsFit(hash, tree.bp, ws, c);
      FilesFit(tree, files[c], runs[c]);
    }
  }

  lemma Whole(hash: KeyHash, data: State, logs: seq<seq<HintItem>>, table: Table, ws: seq<Write>,
              fds: seq<seq<seq<byte>>>, files: seq<seq<seq<HintItem>>>, runs: seq<seq<seq<HintItem>>>, h: u64)
    requires Consistent(hash, data, logs, table, ws) && AllDumped(fds, files, runs, hash, ws) && |fds| == MAX_NUM_CHUNK
    ensures |runs| == MAX_NUM_CHUNK
    ensures ReplayLog(Flats(runs), 0, |runs|, h, None) == Live(TreeEntry(hash, ws, h))
  {
    hide HintsOf, Dumped, TreeEntry, Live, ReplayLog, Rising, LogInv, InLog, TableAgrees, TableOk, Flat;
    assert Flats(runs) == IndexOf(hash, ws, |runs|);
    forall i | 0 <= i < |ws|
      ensures ws[i].chunk < MAX_NUM_CHUNK
    {
      InSomeChunk(data, ws, ws[i]);
    }
    IndexReplays(hash, ws, |runs|, h);
  }
}
