/**
  A split of the index from memory to disk and back: dumping a buffer and looking
  keys up in the file it leaves.
*/
module HintDump {
  import opened Bytes
  import opened HintItems
  import opened HintBuffer
  import opened HintChunk
  import opened Logs
  import opened HintFile

  /** HintBuffer.Dump */
  method Dump(b: HintBuffer, interval: int)
    returns (fd: seq<byte>, es: seq<IndexItem>, meta: Meta, ghost file: seq<HintItem>)
    requires b.Valid() && |b.items| <= MAX_ITEMS && AllWritable(b.items)
    ensures IsFile(fd, file, es, meta) && DumpOf(file, b.run)
    ensures meta.datasize == b.maxoffset && meta.numKey == |b.items|
  {
    hide HintBuffer.Valid, Encoded, IsFile;
    var sorted := SortForDump(b);
    StillWritable(b, sorted);
    var w := new FileWriter(b.maxoffset, interval);
    for i := 0 to |sorted|
      invariant w.Valid() && w.its == sorted[..i] && fresh(w) && fresh(w.index)
    {
      w.WriteItem(sorted[i]);
    }
    assert sorted[..|sorted|] == sorted;
    es, meta := w.Close();
    fd, file := w.fd, sorted;
    Numbered(fd, file, es, meta);
  }

  lemma Numbered(fd: seq<byte>, file: seq<HintItem>, es: seq<IndexItem>, meta: Meta)
    requires IsFile(fd, file, es, meta)
    ensures meta.numKey == |file|
  {
  }

  lemma StillWritable(b: HintBuffer, file: seq<HintItem>)
    requires b.Valid() && AllWritable(b.items) && DumpOf(file, b.run)
    ensures AllWritable(file)
  {
    forall i | 0 <= i < |file|
      ensures Writable(file[i])
    {
      assert file[i] in file;
      var it := file[i];
      assert Last(b.run, it.hash, it.key).value in b.items;
    }
  }

  /** A key that was written to the buffer is found in its file, with its last item. */
  method Find(fd: seq<byte>, es: seq<IndexItem>, h: u64, k: Key,
              ghost file: seq<HintItem>, ghost meta: Meta, ghost run: seq<HintItem>)
    returns (item: Option<HintItem>, err: bool)
    requires IsFile(fd, file, es, meta) && DumpOf(file, run)
    ensures Last(run, h, k).Some? ==> !err && item == Last(run, h, k)
  {
    hide IsFile, Last, Sorted;
    item, err := HintFile.Get(fd, es, h, k, file, meta);
  }

  /** A file can tell whether it has the key. */
  ghost predicate Answers(file: seq<HintItem>, es: seq<IndexItem>, h: u64, k: Key) {
    || (exists it :: it in file && Is(it, h, k))
    || FromHead(es, h)
    || exists t :: 0 <= t < |file| && file[t].hash > h
  }

  /** Files and what they were made from, oldest first. */
  ghost predicate FilesAre(fds: seq<seq<byte>>, tables: seq<seq<IndexItem>>, files: seq<seq<HintItem>>,
                           metas: seq<Meta>, runs: seq<seq<HintItem>>) {
    && |fds| == |tables| == |files| == |metas| == |runs|
    && forall i :: 0 <= i < |fds| ==> IsFile(fds[i], files[i], tables[i], metas[i]) && DumpOf(files[i], runs[i])
  }

  lemma InDump(file: seq<HintItem>, run: seq<HintItem>, h: u64, k: Key)
    requires DumpOf(file, run)
    ensures if Last(run, h, k).Some? then Last(run, h, k).value in file else Absent(file, h, k)
  {
    hide Sorted;
  }

  /** hintChunk.get over dumped splits and splits in memory: the last item written for the
      key to any of them, if every file can tell whether it has the key. */
  method GetInChunk(fds: seq<seq<byte>>, tables: seq<seq<IndexItem>>, mem: HintChunk, h: u64, k: Key,
                    ghost files: seq<seq<HintItem>>, ghost metas: seq<Meta>, ghost runs: seq<seq<HintItem>>)
    returns (it: Option<HintItem>, err: bool)
    requires FilesAre(fds, tables, files, metas, runs) && mem.Valid()
    requires forall i :: 0 <= i < |files| ==> Answers(files[i], tables[i], h, k)
    ensures !err && it == Last(Flat(runs) + Flat(mem.runs), h, k)
  {
    hide IsFile, Last, Sorted, DumpOf, Flat, HintChunk.Valid, FromHead, Answers;
    LastConcat(Flat(runs), Flat(mem.runs), h, k);
    it := mem.GetMemOnly(h, k);
    if it != None {
      return it, false;
    }
    var i := |fds| - 1;
    while i >= 0
      invariant -1 <= i < |fds|
      invariant forall j :: i < j < |fds| ==> Last(runs[j], h, k).None?
    {
      it, err := Ask(fds[i], tables[i], h, k, files[i], metas[i], runs[i]);
      if err {
        return None, true;
      }
      if it != None {
        LastFlat(runs, i, h, k);
        return it, false;
      }
      i := i - 1;
    }
    LastFlatNone(runs, h, k);
    return None, false;
  }

  method Ask(fd: seq<byte>, es: seq<IndexItem>, h: u64, k: Key, ghost file: seq<HintItem>, ghost meta: Meta,
             ghost run: seq<HintItem>)
    returns (it: Option<HintItem>, err: bool)
    requires IsFile(fd, file, es, meta) && DumpOf(file, run) && Answers(file, es, h, k)
    ensures !err && it == Last(run, h, k)
  {
    hide IsFile, Last, Sorted, FromHead;
    InDump(file, run, h, k);
    it, err := HintFile.Get(fd, es, h, k, file, meta);
  }
}
