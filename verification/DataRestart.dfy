/**
  Opening a bucket whose index files are gone, as after a collection: the index of
  each chunk is rebuilt from its data file. The tree then has an entry for exactly
  the keys that a replay of the data leaves, and the entry reads the record.
*/
module DataRestart {
  import opened Bytes
  import opened Logs
  import opened Records
  import opened DataStore
  import opened Gc
  import opened HintItems
  import opened HintFile
  import opened Leaf
  import opened Nibbles
  import opened TreeSpec
  import opened HTree
  import opened HintChunk
  import DataStream
  import GcRecovery
  import Restart
  import BucketRestart

  type Key = HintItems.Key

  /** A chunk that a 32-bit offset can address. */
  predicate Small(log: seq<Record>) {
    |EncodeAll(log)| <= 0x1_0000_0000
  }

  lemma SmallInit(log: seq<Record>)
    requires log != [] && Small(log)
    ensures Small(log[..|log| - 1]) && |EncodeAll(log[..|log| - 1])| < 0x1_0000_0000
  {
    hide EncodeAll;
    OffsetInside(log, |log| - 1);
  }

  /** buildHintFromData: one item for each record of a chunk. */
  function ItemsOf(hash: Key -> u64, vhash: Record -> u16, log: seq<Record>): seq<HintItem>
    requires Small(log)
  {
    if log == [] then []
    else
      SmallInit(log);
      var init, r := log[..|log| - 1], log[|log| - 1];
      ItemsOf(hash, vhash, init) + [HintItem(hash(r.key), 0, |EncodeAll(init)|, r.ver, vhash(r), r.key)]
  }

  ghost predicate AllSmall(logs: seq<seq<Record>>) {
    |logs| <= 0x1_0000 && forall c :: 0 <= c < |logs| ==> Small(logs[c])
  }

  ghost function ItemLogs(hash: Key -> u64, vhash: Record -> u16, logs: seq<seq<Record>>): (s: seq<seq<HintItem>>)
    requires AllSmall(logs)
    ensures |s| == |logs|
  {
    seq(|logs|, c requires 0 <= c < |logs| => ItemsOf(hash, vhash, logs[c]))
  }

  /** No other key of the log has the hash of k. */
  ghost predicate Alone(hash: Key -> u64, log: seq<Record>, k: Key) {
    forall r :: r in log && hash(r.key) == hash(k) ==> r.key == k
  }

  /** The last item of a key's hash is that of its last record and has its place. */
  lemma {:induction false} LastItem(hash: Key -> u64, vhash: Record -> u16, log: seq<Record>, k: Key)
    requires Small(log) && Alone(hash, log, k)
    ensures var it := LastHash(ItemsOf(hash, vhash, log), hash(k));
            match GcRecovery.LastOf(log, k)
            case None => it.None?
            case Some(r) => it.Some? && it.value.ver == r.ver && RecAt(log, it.value.offset) == Some(r)
  {
    hide EncodeAll, RecAt, LastHash;
    if log == [] {
      NoItems(hash(k));
    } else {
      var init, r := log[..|log| - 1], log[|log| - 1];
      SmallInit(log);
      LastItem(hash, vhash, init, k);
      var s := ItemsOf(hash, vhash, init);
      var it := HintItem(hash(r.key), 0, |EncodeAll(init)|, r.ver, vhash(r), r.key);
      assert ItemsOf(hash, vhash, log) == s + [it];
      LastHashSnoc(s, it, hash(k));
      assert r in log && log == init + [r];
      RecAtSnoc(init, r, it.offset);
      var x := LastHash(s, hash(k));
      if r.key != k && x.Some? {
        RecAtSnoc(init, r, x.value.offset);
        InsideLog(init, x.value.offset);
      }
    }
  }

  lemma NoItems(h: u64)
    ensures LastHash([], h) == None
  {
  }

  /** An entry of a rebuilt tree, against the live last record of its key. */
  ghost predicate Stands(logs: seq<seq<Record>>, x: Option<Item>, live: Option<Record>) {
    match live
    case None => x.None?
    case Some(r) =>
      && x.Some? && x.value.ver == r.ver && x.value.chunk < |logs|
      && RecAt(logs[x.value.chunk], x.value.offset) == Some(r)
  }

  lemma {:induction false} RebuiltUpTo(hash: Key -> u64, vhash: Record -> u16, logs: seq<seq<Record>>, hi: nat, k: Key)
    requires AllSmall(logs) && hi <= |logs| && Alone(hash, Flat(logs), k)
    ensures Stands(logs, Restart.ReplayLog(ItemLogs(hash, vhash, logs), 0, hi, hash(k), None),
                   GcRecovery.LiveLast(Flat(logs[..hi]), k))
    decreases hi
  {
    hide EncodeAll, RecAt, LastHash, ItemsOf, GcRecovery.LastOf, Restart.Replay, Flat;
    if hi == 0 {
      assert logs[..0] == [];
      FlatNil<Record>();
      GcRecovery.LastNil(k);
    } else {
      var c := hi - 1;
      var items := ItemLogs(hash, vhash, logs);
      var y := Restart.ReplayLog(items, 0, c, hash(k), None);
      RebuiltUpTo(hash, vhash, logs, c, k);
      forall r | r in logs[c]
        ensures r in Flat(logs)
      {
        InFlat(logs, c, r);
      }
      LastItem(hash, vhash, logs[c], k);
      Restart.ReplayIsLast(items[c], c, hash(k), y);
      FlatNext(logs, c);
      GcRecovery.LastConcat(Flat(logs[..c]), logs[c], k);
    }
  }

  /** The replay that rebuilds the tree and the replay of records are one: after opening, the
      hash of a key has an entry exactly if the key is live in the data, with the version of
      its last record, and reading there gives that record. */
  lemma Rebuilt(hash: Key -> u64, vhash: Record -> u16, logs: seq<seq<Record>>, k: Key)
    requires AllSmall(logs) && Alone(hash, Flat(logs), k)
    requires forall c, j :: 0 <= c < |logs| && 0 <= j < |logs[c]| ==> Storable(logs[c][j])
    ensures var x := Restart.ReplayLog(ItemLogs(hash, vhash, logs), 0, |logs|, hash(k), None);
            var live := GcRecovery.Replay(Flat(logs));
            && (x.Some? <==> k in live)
            && (x.Some? ==> && x.value.ver == live[k].ver && x.value.chunk < |logs|
                            && ReadAt(EncodeAll(logs[x.value.chunk]), x.value.offset) == Some(live[k]))
  {
    hide EncodeAll, Encode, RecAt, ReadAt, Size, ItemLogs, Restart.ReplayLog, GcRecovery.LastOf, GcRecovery.Replay,
      Flat;
    RebuiltUpTo(hash, vhash, logs, |logs|, k);
    assert logs[..|logs|] == logs;
    GcRecovery.ReplayIsLast(Flat(logs), k);
    var x := Restart.ReplayLog(ItemLogs(hash, vhash, logs), 0, |logs|, hash(k), None);
    if x.Some? {
      var log, off := logs[x.value.chunk], x.value.offset;
      RecAtHolds(log, off);
      var j := RecAtIndex(log, off);
      HoldsRead(EncodeAll(log), off, log[j]);
    }
  }

  // ----- the code

  lemma {:induction false} IndexedAt(rs: seq<Record>, i: nat, j: nat)
    requires i + j < |rs|
    ensures |DataStream.Indexed(rs, i)| == |rs| - i && DataStream.Indexed(rs, i)[j] == (Offset(rs, i + j), rs[i + j])
    decreases |rs| - i
  {
    hide EncodeAll;
    if i + 1 < |rs| {
      IndexedAt(rs, i + 1, if j > 0 then j - 1 else 0);
    }
  }

  lemma {:induction false} ItemAt(hash: Key -> u64, vhash: Record -> u16, log: seq<Record>, n: nat)
    requires Small(log) && n < |log|
    ensures |ItemsOf(hash, vhash, log)| == |log| && Offset(log, n) < 0x1_0000_0000
    ensures var r := log[n];
            ItemsOf(hash, vhash, log)[n] == HintItem(hash(r.key), 0, Offset(log, n), r.ver, vhash(r), r.key)
  {
    hide EncodeAll;
    var m := |log| - 1;
    SmallInit(log);
    if n < m {
      ItemAt(hash, vhash, log[..m], n);
      assert log[..m][..n] == log[..n];
    } else if m > 0 {
      ItemAt(hash, vhash, log[..m], m - 1);
    }
  }

  /** buildHintFromData: the records of a data file from a given place on enter the index. */
  method BuildHint(ck: HintChunk, file: seq<byte>, start: nat, hash: Key -> u64, vhash: Record -> u16,
                   ghost log: seq<Record>, ghost i: nat)
    returns (err: bool)
    requires ck.Valid() && file == EncodeAll(log) && Small(log) && i <= |log| && start == Offset(log, i)
    requires forall j :: 0 <= j < |log| ==> Storable(log[j])
    modifies ck.Repr
    ensures !err && ck.Valid() && fresh(ck.Repr - old(ck.Repr))
    ensures |ItemsOf(hash, vhash, log)| == |log|
    ensures Flat(ck.runs) == old(Flat(ck.runs)) + ItemsOf(hash, vhash, log)[i..]
  {
    hide EncodeAll, ItemsOf, Flat, HintChunk.Valid, HintChunk.Full, HintChunk.Covered, Size, Storable;
    DataStream.ScanWritten(log, i);
    var out;
    out, err := DataStream.Scan(file, start);
    ItemCount(hash, vhash, log);
    IndexedCount(log, i);
    ghost var items := ItemsOf(hash, vhash, log);
    assert items[i..i] == [] && old(Flat(ck.runs)) + [] == old(Flat(ck.runs));
    for j := 0 to |out|
      invariant ck.Valid() && fresh(ck.Repr - old(ck.Repr)) && |out| == |log| - i
      invariant Flat(ck.runs) == old(Flat(ck.runs)) + items[i..i + j]
    {
      var (offset, rec) := out[j];
      IndexedAt(log, i, j);
      ItemAt(hash, vhash, log, i + j);
      var _ := ck.SetItem(HintItem(hash(rec.key), 0, offset, rec.ver, vhash(rec), rec.key), Size(rec) % 0x1_0000_0000);
      assert items[i..i + j] + [items[i + j]] == items[i..i + j + 1];
    }
  }

  lemma ItemCount(hash: Key -> u64, vhash: Record -> u16, log: seq<Record>)
    requires Small(log)
    ensures |ItemsOf(hash, vhash, log)| == |log|
  {
    if log != [] {
      ItemAt(hash, vhash, log, 0);
    }
  }

  lemma IndexedCount(rs: seq<Record>, i: nat)
    requires i <= |rs|
    ensures |DataStream.Indexed(rs, i)| == |rs| - i
  {
    if i < |rs| {
      IndexedAt(rs, i, 0);
    }
  }

  /** What a set of data files must be. */
  ghost predicate DataFiles(data: seq<seq<byte>>, logs: seq<seq<Record>>, hash: Key -> u64, bp: seq<nat>) {
    && |data| == |logs| && AllSmall(logs)
    && (forall c :: 0 <= c < |data| ==> data[c] == EncodeAll(logs[c]) && FitsBucket(logs[c], hash, bp))
    && forall a, z :: a in Flat(logs) && z in Flat(logs) && hash(a.key) == hash(z.key) ==> a.key == z.key
  }

  ghost predicate FitsBucket(log: seq<Record>, hash: Key -> u64, bp: seq<nat>) {
    forall j :: 0 <= j < |log| ==> Storable(log[j]) && HasPrefix(hash(log[j].key), bp)
  }

  /** The index of a data file can be written, fits the tree, and has one key per hash. */
  lemma ItemsFit(data: seq<seq<byte>>, logs: seq<seq<Record>>, hash: Key -> u64, vhash: Record -> u16,
                 bp: seq<nat>, c: nat)
    requires DataFiles(data, logs, hash, bp) && c < |logs|
    ensures var s := ItemsOf(hash, vhash, logs[c]);
            && BucketRestart.Dumpable(s) && Restart.OneKeyPerHash(s)
            && forall it :: it in s ==> HasPrefix(it.hash, bp) && it.offset % 256 == 0
  {
    hide EncodeAll, ItemsOf, Flat, HasPrefix;
    var log, s := logs[c], ItemsOf(hash, vhash, logs[c]);
    ItemCount(hash, vhash, log);
    assert FitsBucket(log, hash, bp);
    forall n | 0 <= n < |s|
      ensures Writable(s[n]) && HasPrefix(s[n].hash, bp) && s[n].offset % 256 == 0
      ensures log[n] in Flat(logs) && s[n].hash == hash(log[n].key) && s[n].key == log[n].key
    {
      ItemAt(hash, vhash, log, n);
      EncodeAllAligned(log[..n]);
      InFlat(logs, c, log[n]);
    }
  }

  /** A tree entry that stands for the live record of a key in the data files. */
  ghost predicate ReadsLive(x: Option<Item>, data: seq<seq<byte>>, live: map<Key, Record>, k: Key) {
    && (x.Some? <==> k in live)
    && (x.Some? ==> && x.value.ver == live[k].ver && x.value.chunk < |data|
                    && ReadAt(data[x.value.chunk], x.value.offset) == Some(live[k]))
  }

  /** Opening a bucket that has only its data files, as after a collection: each chunk's index
      is built from the data, dumped, and applied to a new tree. Every key that shares its
      hash with no other then has a live entry exactly if it is live in the data, and reading
      there gives its record. */
  method OpenFromData(data: seq<seq<byte>>, hash: Key -> u64, vhash: Record -> u16, sh: Shape, bp: seq<nat>,
                      splitCap: nat, interval: int, junk: seq<byte>, ghost logs: seq<seq<Record>>)
    returns (tree: Tree)
    requires sh.Legal() && IsPath(bp) && |bp| == sh.depth && |junk| == sh.KHashLen() + ITEM_SIZE
    requires 0 < splitCap <= MAX_ITEMS && |data| > 0 && DataFiles(data, logs, hash, bp)
    ensures tree.Valid()
    ensures forall k :: Alone(hash, Flat(logs), k) ==>
              ReadsLive(Restart.Live(tree.Find(hash(k))), data, GcRecovery.Replay(Flat(logs)), k)
  {
    hide LeavesOk, NodesOk, Sized, FindIn, EncodeAll, ItemsOf, Flat, HasPrefix, HintChunk.Valid, Restart.ReplayLog,
         BucketRestart.Dumped, Restart.Live, Alone, ReadsLive, GcRecovery.Replay, FitsBucket, Small, Restart.Fits,
         Restart.AllStored, Restart.FilesOf, Restart.OneKeyPerHash, BucketRestart.Dumpable;
    var fds: seq<seq<seq<byte>>> := [];
    ghost var files: seq<seq<seq<HintItem>>>, runs: seq<seq<seq<HintItem>>> := [], [];
    tree := new Tree(sh, bp);
    for c := 0 to |data|
      invariant |fds| == |files| == |runs| == c && tree.Valid() && fresh(tree) && tree.bp == bp && tree.sh == sh
      invariant forall h: u64 :: tree.Find(h) == None
      invariant forall d :: 0 <= d < c ==> Restart.AllStored(fds[d], files[d]) && Restart.Fits(tree, Flat(files[d]))
      invariant forall d :: 0 <= d < c ==> Restart.FilesOf(files[d], runs[d]) && Restart.OneKeyPerHash(Flat(runs[d]))
      invariant forall d :: 0 <= d < c ==> Flat(runs[d]) == ItemsOf(hash, vhash, logs[d])
    {
      var f;
      ghost var g, r;
      f, g, r := IndexChunk(data, c, hash, vhash, splitCap, interval, tree, logs);
      fds, files, runs := fds + [f], files + [g], runs + [r];
    }
    BucketRestart.Blank(runs);
    forall h: u64
      ensures Restart.Live(tree.Find(h)) == Restart.ReplayLog([[]], 0, 1, h, None)
    {
      BucketRestart.NothingYet(h);
    }
    Restart.Reopen(tree, fds, 0, -1, junk, files, runs, [[]]);
    assert Restart.Flats(runs) == ItemLogs(hash, vhash, logs);
    forall k | Alone(hash, Flat(logs), k)
      ensures ReadsLive(Restart.Live(tree.Find(hash(k))), data, GcRecovery.Replay(Flat(logs)), k)
    {
      RebuiltReads(data, logs, hash, vhash, bp, k);
    }
  }

  lemma RebuiltReads(data: seq<seq<byte>>, logs: seq<seq<Record>>, hash: Key -> u64, vhash: Record -> u16,
                     bp: seq<nat>, k: Key)
    requires DataFiles(data, logs, hash, bp) && Alone(hash, Flat(logs), k)
    ensures ReadsLive(Restart.ReplayLog(ItemLogs(hash, vhash, logs), 0, |logs|, hash(k), None), data,
                      GcRecovery.Replay(Flat(logs)), k)
  {
    hide EncodeAll, ReadAt, ItemLogs, Restart.ReplayLog, GcRecovery.Replay, Flat, HasPrefix, Alone, Small, Storable;
    forall c, j | 0 <= c < |logs| && 0 <= j < |logs[c]|
      ensures Storable(logs[c][j])
    {
      assert FitsBucket(logs[c], hash, bp);
    }
    Rebuilt(hash, vhash, logs, k);
  }

  /** One chunk's index, built from its data file and dumped. */
  method IndexChunk(data: seq<seq<byte>>, c: nat, hash: Key -> u64, vhash: Record -> u16, splitCap: nat, interval: int,
                    ghost tree: Tree, ghost logs: seq<seq<Record>>)
    returns (fds: seq<seq<byte>>, ghost files: seq<seq<HintItem>>, ghost runs: seq<seq<HintItem>>)
    requires 0 < splitCap <= MAX_ITEMS && c < |data| && DataFiles(data, logs, hash, tree.bp)
    ensures Restart.AllStored(fds, files) && Restart.Fits(tree, Flat(files)) && Restart.FilesOf(files, runs)
    ensures Restart.OneKeyPerHash(Flat(runs)) && Flat(runs) == ItemsOf(hash, vhash, logs[c])
  {
    hide EncodeAll, ItemsOf, Flat, HasPrefix, HintChunk.Valid, Small, Storable, Restart.Fits,
         Restart.AllStored, Restart.FilesOf, Restart.OneKeyPerHash, BucketRestart.Dumpable;
    var ck := new HintChunk(splitCap);
    assert FitsBucket(logs[c], hash, tree.bp);
    AtStart(logs[c]);
    var err := BuildHint(ck, data[c], 0, hash, vhash, logs[c], 0);
    ghost var items := ItemsOf(hash, vhash, logs[c]);
    assert [] + items[0..] == items;
    ItemsFit(data, logs, hash, vhash, tree.bp, c);
    fds, files, runs := BucketRestart.DumpChunk(ck, interval);
    BucketRestart.FilesFit(tree, files, runs);
  }

  lemma AtStart(log: seq<Record>)
    ensures Offset(log, 0) == 0
  {
    assert log[..0] == [];
  }
}
