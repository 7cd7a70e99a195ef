/**
  Garbage collection of a range of chunks. Live records are moved towards the
  front, in place: the chunk being read may be the chunk being written, and
  the writer follows the reader over the same bytes.

  Files are byte sequences and records are intact in them, keys stand for their
  (distinct) hashes, and one record is handled without interference.
*/
module Gc {
  import opened Bytes
  import Checksum
  import opened Records
  import opened DataStore
  import opened Logs

  type Key = seq<byte>

  /** A tree entry: where the newest record of a key is, and its version. */
  datatype Entry = Entry(pos: Position, ver: i32, vhash: u16)

  datatype DataChunk = DataChunk(file: seq<byte>, size: nat, writingHead: nat, rewriting: bool)

  // ----- one chunk

  /** Writing over a file at w, extending it if need be. */
  function Overwrite(f: seq<byte>, w: nat, e: seq<byte>): seq<byte>
    requires w <= |f|
  {
    f[..w] + e + if w + |e| < |f| then f[w + |e|..] else []
  }

  function BeginWriting(c: DataChunk, id: nat, srcChunk: nat): DataChunk {
    if id == srcChunk then c.(rewriting := true, writingHead := 0) else c.(writingHead := c.size)
  }

  function EndWriting(c: DataChunk): DataChunk {
    if c.rewriting && c.writingHead < c.size && c.writingHead <= |c.file|
    then DataChunk(c.file[..c.writingHead], c.writingHead, c.writingHead, false)
    else c.(rewriting := false)
  }

  function AppendGC(c: DataChunk, r: Record): DataChunk
    requires c.writingHead <= |c.file|
  {
    var head := c.writingHead + Size(r);
    c.(file := Overwrite(c.file, c.writingHead, Encode(r)), writingHead := head,
       size := if head >= c.size then head else c.size)
  }

  const CLEARED := DataChunk([], 0, 0, false)

  // ----- looking a position up in a record sequence

  function RecAt(log: seq<Record>, off: nat): Option<Record> {
    if log == [] then None
    else
      var pre := log[..|log| - 1];
      if off == |EncodeAll(pre)| then Some(log[|log| - 1]) else RecAt(pre, off)
  }

  lemma RecAtSnoc(log: seq<Record>, r: Record, off: nat)
    ensures RecAt(log + [r], off) == if off == |EncodeAll(log)| then Some(r) else RecAt(log, off)
  {
    hide EncodeAll;
    assert (log + [r])[..|log|] == log;
  }

  lemma {:induction false} RecAtIndex(log: seq<Record>, off: nat) returns (j: nat)
    requires RecAt(log, off).Some?
    ensures j < |log| && Offset(log, j) == off && log[j] == RecAt(log, off).value
  {
    hide EncodeAll;
    var m := |log| - 1;
    if off == |EncodeAll(log[..m])| {
      j := m;
    } else {
      j := RecAtIndex(log[..m], off);
      assert log[..m][..j] == log[..j];
    }
  }

  lemma {:induction false} RecAtOffset(log: seq<Record>, i: nat)
    requires i < |log|
    ensures RecAt(log, Offset(log, i)) == Some(log[i])
  {
    hide EncodeAll;
    var m := |log| - 1;
    if i < m {
      OffsetsGrow(log, i, m);
      RecAtOffset(log[..m], i);
      assert log[..m][..i] == log[..i];
    }
  }

  lemma RecAtHolds(log: seq<Record>, off: nat)
    requires RecAt(log, off).Some?
    ensures Holds(EncodeAll(log), off, RecAt(log, off).value)
  {
    var j := RecAtIndex(log, off);
    EncodeAllAt(log, j);
  }

  /** After record i the next position is the end of record i. */
  lemma RecAtNext(log: seq<Record>, i: nat, off: nat)
    requires i < |log| && RecAt(log, off).Some? && off > Offset(log, i)
    ensures off >= Offset(log, i) + Size(log[i])
  {
    hide EncodeAll;
    var j := RecAtIndex(log, off);
    EncodeAllAt(log, i);
    if j <= i {
      if j < i {
        OffsetsGrow(log, j, i);
      }
    } else if i + 1 < j {
      OffsetsGrow(log, i + 1, j);
    }
  }

  // ----- the state before the collection

  datatype Before = Before(logs: seq<seq<Record>>, htree: map<Key, Entry>, begin: nat, end: nat)

  /** The range exists, its chunks are no longer than a data file may be, and
      every tree entry leads to a record of its key. */
  ghost predicate Sound(b: Before) {
    && b.begin <= b.end < |b.logs|
    && (forall c, j :: 0 <= c < |b.logs| && 0 <= j < |b.logs[c]| ==> Storable(b.logs[c][j]))
    && (forall c :: b.begin <= c <= b.end ==> |EncodeAll(b.logs[c])| <= DATA_FILE_MAX)
    && (forall k :: k in b.htree ==> EntryOk(b, k))
  }

  ghost predicate EntryOk(b: Before, k: Key)
    requires k in b.htree
  {
    var p := b.htree[k].pos;
    && 0 <= p.chunk < |b.logs|
    && RecAt(b.logs[p.chunk], p.offset).Some?
    && RecAt(b.logs[p.chunk], p.offset).value.key == k
  }

  /** The record a key had before the collection. */
  ghost function Rec0(b: Before, k: Key): Record
    requires k in b.htree && EntryOk(b, k)
  {
    var p := b.htree[k].pos;
    RecAt(b.logs[p.chunk], p.offset).value
  }

  // ----- what holds while records move

  ghost predicate ChunkIs(c: DataChunk, log: seq<Record>) {
    c.file == EncodeAll(log) && c.size == |c.file| && !c.rewriting
  }

  ghost predicate DstIs(c: DataChunk, log: seq<Record>) {
    && c.writingHead == |EncodeAll(log)| <= |c.file| == c.size
    && c.file[..c.writingHead] == EncodeAll(log)
    && (!c.rewriting ==> c.writingHead == |c.file|)
  }

  /** The writer is behind the reader and the unread bytes are untouched. */
  ghost predicate InPlace(c: DataChunk, log: seq<Record>, rd: nat) {
    && c.rewriting && c.writingHead <= rd <= |c.file| == |EncodeAll(log)|
    && c.file[rd..] == EncodeAll(log)[rd..]
  }

  /** Chunks from the source on are as before, those between it and the destination empty. */
  ghost predicate Layout(b: Before, now: seq<seq<Record>>, src: nat, dst: nat)
    requires |now| == |b.logs| && src <= |now|
  {
    && (forall c :: src <= c < |now| && c != dst ==> now[c] == b.logs[c])
    && (forall c :: dst < c < src ==> now[c] == [])
  }

  /** The files: `now` is what each chunk holds, `src` is being read at `rd`,
      `dst` is being written. */
  ghost predicate Files(b: Before, chunks: seq<DataChunk>, now: seq<seq<Record>>, src: nat, dst: nat, rd: nat) {
    && |chunks| == |now| == |b.logs| && dst <= src <= |b.logs| && dst < |b.logs|
    && (forall c :: 0 <= c < |chunks| && c != dst ==> ChunkIs(chunks[c], now[c]))
    && DstIs(chunks[dst], now[dst])
    && Layout(b, now, src, dst)
    && (src == dst ==> InPlace(chunks[dst], b.logs[src], rd))
  }

  /** Positions the reader has not come to. */
  predicate Unread(p: Position, src: nat, rd: nat) {
    p.chunk > src || (p.chunk == src && p.offset >= rd)
  }

  ghost predicate PointerOk(b: Before, e: Entry, k: Key, now: seq<seq<Record>>, src: nat, dst: nat, rd: nat)
    requires k in b.htree && EntryOk(b, k) && |now| == |b.logs|
  {
    var p, p0 := e.pos, b.htree[k].pos;
    && e.ver == b.htree[k].ver && e.vhash == b.htree[k].vhash
    && 0 <= p.chunk < |b.logs|
    && if Unread(p, src, rd) || Unread(p0, src, rd) then p == p0
       else (p.chunk == src ==> src == dst) && RecAt(now[p.chunk], p.offset) == Some(Rec0(b, k))
  }

  /** Entries of unread records are as before; all others lead into `now`. */
  ghost predicate Pointers(b: Before, htree: map<Key, Entry>, now: seq<seq<Record>>, src: nat, dst: nat, rd: nat)
    requires Sound(b) && |now| == |b.logs|
  {
    && htree.Keys == b.htree.Keys
    && forall k :: k in htree ==> PointerOk(b, htree[k], k, now, src, dst, rd)
  }

  /** Every entry can be read: it leads to an intact copy of the record its key
      had before the collection. */
  lemma EveryEntryReads(b: Before, chunks: seq<DataChunk>, htree: map<Key, Entry>, now: seq<seq<Record>>,
                        src: nat, dst: nat, rd: nat, k: Key)
    requires Sound(b) && Files(b, chunks, now, src, dst, rd) && Pointers(b, htree, now, src, dst, rd)
    requires k in htree
    ensures ReadsBack(b, chunks, htree[k], k)
  {
    hide EncodeAll, Encode, ReadAt, Size, RecAt;
    assert k in b.htree && EntryOk(b, k);
    var p := htree[k].pos;
    assert PointerOk(b, htree[k], k, now, src, dst, rd);
    var c := chunks[p.chunk];
    var r := Rec0(b, k);
    if Unread(p, src, rd) {
      RecAtHolds(b.logs[p.chunk], p.offset);
      if p.chunk == dst {
        HoldsTail(EncodeAll(b.logs[src]), c.file, rd, p.offset, r);
      }
    } else {
      RecAtHolds(now[p.chunk], p.offset);
      if p.chunk == dst {
        HoldsHead(EncodeAll(now[dst]), c.file, p.offset, r);
      }
    }
    StorableRec(b, k);
    HoldsRead(c.file, p.offset, r);
  }

  lemma StorableRec(b: Before, k: Key)
    requires Sound(b) && k in b.htree
    ensures EntryOk(b, k) && Storable(Rec0(b, k))
  {
    hide EncodeAll;
    assert EntryOk(b, k);
    var p := b.htree[k].pos;
    var j := RecAtIndex(b.logs[p.chunk], p.offset);
  }

  lemma HoldsTail(a: seq<byte>, f: seq<byte>, rd: nat, off: nat, r: Record)
    requires |a| == |f| && rd <= |a| && a[rd..] == f[rd..] && rd <= off && Holds(a, off, r)
    ensures Holds(f, off, r)
  {
    hide Encode, Size;
    var n := Size(r);
    SubSlice(f, rd, |f| - rd, off - rd, off - rd + n);
    SubSlice(a, rd, |a| - rd, off - rd, off - rd + n);
    assert f[rd..|f|] == f[rd..] && a[rd..|a|] == a[rd..];
  }

  lemma HoldsHead(a: seq<byte>, f: seq<byte>, off: nat, r: Record)
    requires |a| <= |f| && f[..|a|] == a && Holds(a, off, r)
    ensures Holds(f, off, r)
  {
    hide Encode, Size;
    SubSlice(f, 0, |a|, off, off + Size(r));
    assert f[0..|a|] == f[..|a|];
  }

  // ----- one record

  lemma OverwriteParts(f: seq<byte>, w: nat, e: seq<byte>)
    requires w <= |f|
    ensures var g := Overwrite(f, w, e);
            && |g| == (if w + |e| < |f| then |f| else w + |e|)
            && g[..w + |e|] == f[..w] + e
            && forall q :: w + |e| <= q <= |f| ==> g[q..] == f[q..]
  {
    var g := Overwrite(f, w, e);
    assert g[..w + |e|] == f[..w] + e;
    forall q | w + |e| <= q <= |f|
      ensures g[q..] == f[q..]
    {
      if q < |f| {
        assert forall k :: q <= k < |f| ==> g[k] == f[k];
      }
    }
  }

  lemma AppendDst(c: DataChunk, log: seq<Record>, r: Record)
    requires DstIs(c, log)
    ensures DstIs(AppendGC(c, r), log + [r])
  {
    hide Encode, EncodeAll, Overwrite, Size;
    OverwriteParts(c.file, c.writingHead, Encode(r));
    EncodeAllSnoc(log, r);
  }

  lemma AppendInPlace(c: DataChunk, log: seq<Record>, i: nat, r: Record)
    requires i < |log| && r == log[i] && c.size == |c.file| && InPlace(c, log, Offset(log, i))
    ensures InPlace(AppendGC(c, r), log, Offset(log, i) + Size(r))
  {
    hide Encode, EncodeAll, Overwrite, Size;
    var rd := Offset(log, i);
    var rd' := rd + Size(r);
    EncodeAllAt(log, i);
    OverwriteParts(c.file, c.writingHead, Encode(r));
    TailMore(c.file, EncodeAll(log), rd, rd');
    assert AppendGC(c, r).file[rd'..] == c.file[rd'..];
  }

  lemma TailMore(a: seq<byte>, b: seq<byte>, p: nat, q: nat)
    requires |a| == |b| && p <= q <= |a| && a[p..] == b[p..]
    ensures a[q..] == b[q..]
  {
    assert a[q..] == a[p..][q - p..] && b[q..] == b[p..][q - p..];
  }

  /** Writing a survivor keeps the files in order. */
  lemma AppendFiles(b: Before, chunks: seq<DataChunk>, now: seq<seq<Record>>, src: nat, dst: nat, i: nat)
    requires src < |b.logs| && i < |b.logs[src]| && Files(b, chunks, now, src, dst, Offset(b.logs[src], i))
    ensures var r := b.logs[src][i];
            Files(b, chunks[dst := AppendGC(chunks[dst], r)], now[dst := now[dst] + [r]], src, dst,
                  Offset(b.logs[src], i) + Size(r))
  {
    hide Encode, EncodeAll, AppendGC, DstIs, InPlace, ChunkIs, Size;
    var r := b.logs[src][i];
    assert chunks[dst].size == |chunks[dst].file|
           && chunks[dst].writingHead <= |chunks[dst].file| by { DstSize(chunks[dst], now[dst]); }
    AppendDst(chunks[dst], now[dst], r);
    if src == dst {
      AppendInPlace(chunks[dst], b.logs[src], i, r);
    }
  }

  lemma DstSize(c: DataChunk, log: seq<Record>)
    requires DstIs(c, log)
    ensures c.writingHead <= |c.file| == c.size && c.writingHead == |EncodeAll(log)|
  {
  }

  lemma SkipFiles(b: Before, chunks: seq<DataChunk>, now: seq<seq<Record>>, src: nat, dst: nat, i: nat)
    requires src < |b.logs| && i < |b.logs[src]| && Files(b, chunks, now, src, dst, Offset(b.logs[src], i))
    ensures Files(b, chunks, now, src, dst, Offset(b.logs[src], i) + Size(b.logs[src][i]))
  {
    hide Encode, EncodeAll, ChunkIs, DstIs, Size;
    EncodeAllAt(b.logs[src], i);
    if src == dst {
      TailMore(chunks[dst].file, EncodeAll(b.logs[src]), Offset(b.logs[src], i),
               Offset(b.logs[src], i) + Size(b.logs[src][i]));
    }
  }

  /** A record that is not newest has no entry pointing at it, so the reader may
      pass it. */
  lemma SkipPointers(b: Before, htree: map<Key, Entry>, now: seq<seq<Record>>, src: nat, dst: nat, i: nat)
    requires Sound(b) && |now| == |b.logs| && src < |b.logs| && i < |b.logs[src]|
    requires Pointers(b, htree, now, src, dst, Offset(b.logs[src], i))
    requires var r := b.logs[src][i]; r.key in htree ==> htree[r.key].pos != Position(src, Offset(b.logs[src], i))
    ensures Pointers(b, htree, now, src, dst, Offset(b.logs[src], i) + Size(b.logs[src][i]))
  {
    hide EncodeAll, RecAt, Size;
    var rd := Offset(b.logs[src], i);
    forall k | k in htree
      ensures PointerOk(b, htree[k], k, now, src, dst, rd + Size(b.logs[src][i]))
    {
      assert PointerOk(b, htree[k], k, now, src, dst, rd);
      Untouched(b, k, src, i);
    }
  }

  /** Entries of other keys lie before or after record i, never on it. */
  lemma Untouched(b: Before, k: Key, src: nat, i: nat)
    requires Sound(b) && k in b.htree && src < |b.logs| && i < |b.logs[src]|
    ensures var p0, rd := b.htree[k].pos, Offset(b.logs[src], i);
            && EntryOk(b, k)
            && (Unread(p0, src, rd) && p0 != Position(src, rd) ==> Unread(p0, src, rd + Size(b.logs[src][i])))
            && (p0 == Position(src, rd) ==> b.logs[src][i].key == k && Rec0(b, k) == b.logs[src][i])
  {
    hide EncodeAll, Size;
    var p0, rd := b.htree[k].pos, Offset(b.logs[src], i);
    assert EntryOk(b, k);
    RecAtOffset(b.logs[src], i);
    if p0.chunk == src && p0.offset > rd {
      RecAtNext(b.logs[src], i, p0.offset);
    }
  }

  /** Moving the newest record of a key repoints its entry and no other. */
  lemma MovePointers(b: Before, htree: map<Key, Entry>, now: seq<seq<Record>>, src: nat, dst: nat, i: nat, w: nat)
    requires Sound(b) && |now| == |b.logs| && dst <= src < |b.logs| && i < |b.logs[src]|
    requires Pointers(b, htree, now, src, dst, Offset(b.logs[src], i))
    requires w == |EncodeAll(now[dst])| && (src == dst ==> w <= Offset(b.logs[src], i))
    requires var r := b.logs[src][i]; r.key in htree && htree[r.key].pos == Position(src, Offset(b.logs[src], i))
    ensures var r := b.logs[src][i];
            Pointers(b, htree[r.key := htree[r.key].(pos := Position(dst, w))], now[dst := now[dst] + [r]], src, dst,
                     Offset(b.logs[src], i) + Size(r))
  {
    hide EncodeAll, RecAt, Size;
    var r := b.logs[src][i];
    var rd := Offset(b.logs[src], i);
    var htree' := htree[r.key := htree[r.key].(pos := Position(dst, w))];
    var now' := now[dst := now[dst] + [r]];
    forall k | k in htree'
      ensures PointerOk(b, htree'[k], k, now', src, dst, rd + Size(r))
    {
      assert PointerOk(b, htree[k], k, now, src, dst, rd);
      Untouched(b, k, src, i);
      var p := htree'[k].pos;
      RecAtSnoc(now[dst], r, p.offset);
      if k != r.key && p.chunk == dst && !Unread(p, src, rd) {
        InsideLog(now[dst], p.offset);
      }
    }
  }

  lemma InsideLog(log: seq<Record>, off: nat)
    requires RecAt(log, off).Some?
    ensures off < |EncodeAll(log)|
  {
    hide EncodeAll;
    RecAtHolds(log, off);
  }

  /** Copying a tombstone no entry points at. */
  lemma CopyPointers(b: Before, htree: map<Key, Entry>, now: seq<seq<Record>>, src: nat, dst: nat, i: nat)
    requires Sound(b) && |now| == |b.logs| && dst <= src < |b.logs| && i < |b.logs[src]|
    requires Pointers(b, htree, now, src, dst, Offset(b.logs[src], i))
    requires b.logs[src][i].key !in htree
    ensures var r := b.logs[src][i];
            Pointers(b, htree, now[dst := now[dst] + [r]], src, dst, Offset(b.logs[src], i) + Size(r))
  {
    hide EncodeAll, RecAt, Size;
    var r := b.logs[src][i];
    var rd := Offset(b.logs[src], i);
    var now' := now[dst := now[dst] + [r]];
    forall k | k in htree
      ensures PointerOk(b, htree[k], k, now', src, dst, rd + Size(r))
    {
      assert PointerOk(b, htree[k], k, now, src, dst, rd);
      Untouched(b, k, src, i);
      var p := htree[k].pos;
      RecAtSnoc(now[dst], r, p.offset);
      if p.chunk == dst && !Unread(p, src, rd) {
        InsideLog(now[dst], p.offset);
      }
    }
  }

  // ----- rotating the destination, finishing a source chunk

  lemma EndIs(c: DataChunk, log: seq<Record>)
    requires DstIs(c, log)
    ensures ChunkIs(EndWriting(c), log)
  {
    assert c.writingHead == |c.file| ==> c.file[..c.writingHead] == c.file;
  }

  ghost function RotateNow(now: seq<seq<Record>>, src: nat, dst: nat): seq<seq<Record>>
    requires dst < src < |now|
  {
    if dst + 1 == src then now[src := []] else now
  }

  function RotateChunks(chunks: seq<DataChunk>, src: nat, dst: nat): seq<DataChunk>
    requires dst + 1 < |chunks|
  {
    var ended := chunks[dst := EndWriting(chunks[dst])];
    ended[dst + 1 := BeginWriting(ended[dst + 1], dst + 1, src)]
  }

  lemma RotateFiles(b: Before, chunks: seq<DataChunk>, now: seq<seq<Record>>, src: nat, dst: nat, rd: nat)
    requires dst < src < |b.logs| && Files(b, chunks, now, src, dst, rd) && rd <= |EncodeAll(b.logs[src])|
    ensures Files(b, RotateChunks(chunks, src, dst), RotateNow(now, src, dst), src, dst + 1, rd)
  {
    hide EncodeAll, EndWriting;
    EndIs(chunks[dst], now[dst]);
    EmptyLog();
    assert ChunkIs(chunks[dst + 1], now[dst + 1]);
    var c := BeginWriting(chunks[dst + 1], dst + 1, src);
    if dst + 1 == src {
      assert c.file[..0] == EncodeAll([]);
      assert DstIs(c, []);
    } else {
      assert c.file[..0] == EncodeAll([]);
    }
  }

  lemma RotatePointers(b: Before, htree: map<Key, Entry>, now: seq<seq<Record>>, src: nat, dst: nat, rd: nat)
    requires Sound(b) && dst < src < |b.logs| == |now| && Pointers(b, htree, now, src, dst, rd)
    ensures Pointers(b, htree, RotateNow(now, src, dst), src, dst + 1, rd)
  {
    hide RecAt;
    var now' := RotateNow(now, src, dst);
    forall k | k in htree
      ensures PointerOk(b, htree[k], k, now', src, dst + 1, rd)
    {
      assert PointerOk(b, htree[k], k, now, src, dst, rd);
    }
  }

  /** Leaving a fully read chunk: it is removed unless it is the destination. */
  ghost function Cleared<T>(s: seq<T>, src: nat, dst: nat, empty: T): seq<T>
    requires src < |s|
  {
    if src == dst then s else s[src := empty]
  }

  lemma LeaveFiles(b: Before, chunks: seq<DataChunk>, now: seq<seq<Record>>, src: nat, dst: nat)
    requires src < |b.logs| && Files(b, chunks, now, src, dst, |EncodeAll(b.logs[src])|)
    ensures Files(b, Cleared(chunks, src, dst, CLEARED), Cleared(now, src, dst, []), src + 1, dst, 0)
  {
    hide EncodeAll, DstIs, InPlace;
    EmptyLog();
    assert CLEARED.file == EncodeAll([]);
  }

  lemma LeavePointers(b: Before, htree: map<Key, Entry>, now: seq<seq<Record>>, src: nat, dst: nat)
    requires Sound(b) && |now| == |b.logs| && src < |b.logs|
    requires Pointers(b, htree, now, src, dst, |EncodeAll(b.logs[src])|)
    ensures Pointers(b, htree, Cleared(now, src, dst, []), src + 1, dst, 0)
  {
    hide EncodeAll, RecAt;
    var now' := Cleared(now, src, dst, []);
    forall k | k in htree
      ensures PointerOk(b, htree[k], k, now', src + 1, dst, 0)
    {
      assert PointerOk(b, htree[k], k, now, src, dst, |EncodeAll(b.logs[src])|);
      assert EntryOk(b, k);
      var p0 := b.htree[k].pos;
      InsideLog(b.logs[p0.chunk], p0.offset);
    }
  }

  // ----- the order of what is kept

  /** Whether the collector keeps record j of chunk c: it is the newest of its
      key, or a tombstone of an unknown key while older chunks stay as they are. */
  predicate Kept(b: Before, c: nat, j: nat)
    requires c < |b.logs| && j < |b.logs[c]|
  {
    var r := b.logs[c][j];
    if r.key in b.htree then b.htree[r.key].pos == Position(c, Offset(b.logs[c], j))
    else b.begin > 0 && r.ver < 0
  }

  /** The chunks up to the destination hold what was before the range and then
      the survivors so far, in their old order. */
  ghost predicate Order(b: Before, now: seq<seq<Record>>, dst: nat, survivors: seq<Record>)
    requires b.begin <= |b.logs| && dst < |now|
  {
    Flat(now[..dst + 1]) == Flat(b.logs[..b.begin]) + survivors
  }

  lemma OrderKeep(b: Before, now: seq<seq<Record>>, dst: nat, survivors: seq<Record>, r: Record)
    requires b.begin <= |b.logs| && dst < |now| && Order(b, now, dst, survivors)
    ensures Order(b, now[dst := now[dst] + [r]], dst, survivors + [r])
  {
    hide Flat;
    var now' := now[dst := now[dst] + [r]];
    FlatNext(now, dst);
    FlatNext(now', dst);
    assert now'[..dst] == now[..dst];
    ConcatAssoc(Flat(now[..dst]), now[dst], [r]);
    ConcatAssoc(Flat(b.logs[..b.begin]), survivors, [r]);
  }

  lemma OrderRotate(b: Before, now: seq<seq<Record>>, src: nat, dst: nat, survivors: seq<Record>)
    requires b.begin <= |b.logs| && dst < src < |now| && Order(b, now, dst, survivors)
    requires dst + 1 < src ==> now[dst + 1] == []
    ensures Order(b, RotateNow(now, src, dst), dst + 1, survivors)
  {
    hide Flat;
    var now' := RotateNow(now, src, dst);
    FlatNext(now', dst + 1);
    assert now'[..dst + 1] == now[..dst + 1];
    assert Flat(now[..dst + 1]) + [] == Flat(now[..dst + 1]);
  }

  // ----- the invariant, step by step

  lemma OffsetInside(log: seq<Record>, i: nat)
    requires i <= |log|
    ensures Offset(log, i) <= |EncodeAll(log)| && (Offset(log, i) == |EncodeAll(log)| <==> i == |log|)
  {
    hide EncodeAll;
    assert log[..|log|] == log;
    if i < |log| {
      OffsetsGrow(log, i, |log|);
    }
  }

  lemma FilesHead(b: Before, chunks: seq<DataChunk>, now: seq<seq<Record>>, src: nat, dst: nat, rd: nat)
    requires Files(b, chunks, now, src, dst, rd)
    ensures |chunks| == |now| == |b.logs| && dst < |b.logs| && dst <= src <= |now| && Layout(b, now, src, dst)
    ensures chunks[dst].writingHead == |EncodeAll(now[dst])| <= |chunks[dst].file|
    ensures src == dst ==> chunks[dst].writingHead <= rd
  {
  }

  lemma FilesLength(b: Before, chunks: seq<DataChunk>, now: seq<seq<Record>>, src: nat, dst: nat, rd: nat)
    requires Files(b, chunks, now, src, dst, rd) && src < |b.logs|
    ensures |chunks| == |now| == |b.logs| && |chunks[src].file| == |EncodeAll(b.logs[src])| == chunks[src].size
  {
    hide EncodeAll;
  }

  /** A survivor is written and, if the tree knows its key, repointed. */
  lemma MoveRecord(b: Before, chunks: seq<DataChunk>, htree: map<Key, Entry>, now: seq<seq<Record>>, kept: seq<Record>,
                   src: nat, dst: nat, i: nat)
    requires Sound(b) && src <= b.end && i < |b.logs[src]|
    requires Files(b, chunks, now, src, dst, Offset(b.logs[src], i)) && |now| == |b.logs| == |chunks| && dst < |now|
    requires Pointers(b, htree, now, src, dst, Offset(b.logs[src], i)) && Order(b, now, dst, kept)
    requires chunks[dst].writingHead <= |chunks[dst].file|
    requires var r := b.logs[src][i]; r.key in htree ==> htree[r.key].pos == Position(src, Offset(b.logs[src], i))
    ensures var r := b.logs[src][i]; var p := Position(dst, chunks[dst].writingHead);
            var rd' := Offset(b.logs[src], i + 1);
            var now' := now[dst := now[dst] + [r]];
            && Files(b, chunks[dst := AppendGC(chunks[dst], r)], now', src, dst, rd')
            && Pointers(b, if r.key in htree then htree[r.key := htree[r.key].(pos := p)] else htree, now', src, dst,
                        rd')
            && Order(b, now', dst, kept + [r])
  {
    hide EncodeAll, Encode, Size, AppendGC, Files, Pointers, Order;
    var r := b.logs[src][i];
    EncodeAllAt(b.logs[src], i);
    FilesHead(b, chunks, now, src, dst, Offset(b.logs[src], i));
    AppendFiles(b, chunks, now, src, dst, i);
    if r.key in htree {
      MovePointers(b, htree, now, src, dst, i, chunks[dst].writingHead);
    } else {
      CopyPointers(b, htree, now, src, dst, i);
    }
    OrderKeep(b, now, dst, kept, r);
  }

  lemma PassRecord(b: Before, chunks: seq<DataChunk>, htree: map<Key, Entry>, now: seq<seq<Record>>,
                   src: nat, dst: nat, i: nat)
    requires Sound(b) && src <= b.end && i < |b.logs[src]|
    requires Files(b, chunks, now, src, dst, Offset(b.logs[src], i)) && |now| == |b.logs|
    requires Pointers(b, htree, now, src, dst, Offset(b.logs[src], i))
    requires var r := b.logs[src][i]; r.key in htree ==> htree[r.key].pos != Position(src, Offset(b.logs[src], i))
    ensures var rd' := Offset(b.logs[src], i + 1);
            Files(b, chunks, now, src, dst, rd') && Pointers(b, htree, now, src, dst, rd')
  {
    hide EncodeAll, Encode, Size, Files, Pointers;
    EncodeAllAt(b.logs[src], i);
    SkipFiles(b, chunks, now, src, dst, i);
    SkipPointers(b, htree, now, src, dst, i);
  }

  /** All of chunk src read. */
  lemma ChunkDone(b: Before, chunks: seq<DataChunk>, htree: map<Key, Entry>, now: seq<seq<Record>>, kept: seq<Record>,
                  src: nat, dst: nat)
    requires Sound(b) && b.begin <= src <= b.end
    requires Files(b, chunks, now, src, dst, |EncodeAll(b.logs[src])|) && |now| == |b.logs| == |chunks| && dst < |now|
    requires Pointers(b, htree, now, src, dst, |EncodeAll(b.logs[src])|) && Order(b, now, dst, kept)
    ensures var now' := Cleared(now, src, dst, []);
            && Files(b, Cleared(chunks, src, dst, CLEARED), now', src + 1, dst, 0)
            && Pointers(b, htree, now', src + 1, dst, 0)
            && Order(b, now', dst, kept)
  {
    hide EncodeAll, Pointers, ChunkIs, DstIs, InPlace, Flat;
    LeaveFiles(b, chunks, now, src, dst);
    LeavePointers(b, htree, now, src, dst);
    assert Cleared(now, src, dst, [])[..dst + 1] == now[..dst + 1];
  }

  /** An empty chunk is passed over. */
  lemma SkipChunk(b: Before, chunks: seq<DataChunk>, htree: map<Key, Entry>, now: seq<seq<Record>>, src: nat, dst: nat)
    requires Sound(b) && b.begin <= src <= b.end && |EncodeAll(b.logs[src])| == 0
    requires Files(b, chunks, now, src, dst, 0) && |now| == |b.logs| && Pointers(b, htree, now, src, dst, 0)
    ensures b.logs[src] == [] && Cleared(now, src, dst, []) == now
    ensures Files(b, chunks, now, src + 1, dst, 0) && Pointers(b, htree, now, src + 1, dst, 0)
  {
    hide EncodeAll, Pointers, DstIs, InPlace;
    OffsetInside(b.logs[src], 0);
    assert b.logs[src][..0] == [];
    LeavePointers(b, htree, now, src, dst);
    assert src != dst ==> now[src] == [];
    assert Cleared(now, src, dst, []) == now;
  }

  /** The chunks that are still to be read when the collector leaves. */
  function Rest(b: Before, src: nat, dst: nat): nat {
    if dst < src then src else src + 1
  }

  /** Whenever the collector leaves, closing the destination makes every file whole.
      The records are those before the range, the survivors, and the chunks from the
      source on, without the source if it is the destination. */
  lemma EndFiles(b: Before, chunks: seq<DataChunk>, now: seq<seq<Record>>, kept: seq<Record>, src: nat, dst: nat,
                 rd: nat)
    requires Sound(b) && src < |b.logs| && |now| == |b.logs| && dst < |now|
    requires Files(b, chunks, now, src, dst, rd) && Order(b, now, dst, kept)
    ensures var chunks' := chunks[dst := EndWriting(chunks[dst])];
            |chunks'| == |now| && forall c :: 0 <= c < |chunks'| ==> ChunkIs(chunks'[c], now[c])
    ensures Flat(now) == Flat(b.logs[..b.begin]) + kept + Flat(b.logs[Rest(b, src, dst)..])
  {
    hide EncodeAll, Flat, InPlace, EndWriting;
    EndIs(chunks[dst], now[dst]);
    var rest := Rest(b, src, dst);
    FlatTail(now, dst + 1, rest);
    assert now[rest..] == b.logs[rest..];
  }

  /** The entry e of k leads to an intact copy of the record k should have. */
  ghost predicate ReadsBack(b: Before, chunks: seq<DataChunk>, e: Entry, k: Key) {
    && k in b.htree && EntryOk(b, k) && 0 <= e.pos.chunk < |chunks|
    && e.ver == b.htree[k].ver && e.vhash == b.htree[k].vhash
    && ReadAt(chunks[e.pos.chunk].file, e.pos.offset) == Some(Rec0(b, k))
  }

  /** Whether leaving loses an entry: it leads to an unread place of a chunk that is
      cut off behind its survivors. */
  predicate CutOff(e: Entry, src: nat, dst: nat, rd: nat) {
    src == dst && e.pos.chunk == src && e.pos.offset >= rd
  }

  /** After the destination is closed, exactly the entries that are cut off are lost. */
  lemma AfterEnd(b: Before, chunks: seq<DataChunk>, htree: map<Key, Entry>, now: seq<seq<Record>>,
                 src: nat, dst: nat, rd: nat, k: Key)
    requires Sound(b) && src < |b.logs| && Files(b, chunks, now, src, dst, rd) && |now| == |b.logs|
    requires Pointers(b, htree, now, src, dst, rd) && k in htree
    ensures ReadsBack(b, chunks[dst := EndWriting(chunks[dst])], htree[k], k) <==> !CutOff(htree[k], src, dst, rd)
  {
    hide EncodeAll, Encode, Size, RecAt, ReadAt;
    assert k in b.htree && EntryOk(b, k);
    var e := htree[k];
    var chunks' := chunks[dst := EndWriting(chunks[dst])];
    assert PointerOk(b, e, k, now, src, dst, rd);
    EndIs(chunks[dst], now[dst]);
    assert chunks'[e.pos.chunk].file == EncodeAll(now[e.pos.chunk]);
    StorableRec(b, k);
    if CutOff(e, src, dst, rd) {
      BeyondEnd(chunks'[src].file, e.pos.offset);
    } else {
      assert RecAt(now[e.pos.chunk], e.pos.offset) == Some(Rec0(b, k));
      RecAtHolds(now[e.pos.chunk], e.pos.offset);
      HoldsRead(chunks'[e.pos.chunk].file, e.pos.offset, Rec0(b, k));
    }
  }

  lemma BeyondEnd(file: seq<byte>, off: nat)
    requires off >= |file|
    ensures ReadAt(file, off) == None
  {
    hide Checksum.Crc, Val;
  }

  // ----- opening a collection

  /** The destination the collector starts with, scanning down from chunk i. */
  function Nearest(chunks: seq<DataChunk>, begin: nat, i: nat): (d: nat)
    requires i <= begin < |chunks|
    ensures d <= begin
    ensures forall c :: d < c < i ==> chunks[c].size == 0
  {
    if i == 0 then begin
    else
      var sz := chunks[i - 1].size;
      if sz == 0 then Nearest(chunks, begin, i - 1)
      else if sz < DATA_FILE_MAX - BODY_MAX then i - 1
      else if i - 1 < begin - 1 then i
      else begin
  }

  /** Of the chunks below the range, the last that is not empty, if it has room for another
      record, else the one after it; the first source if all are empty. */
  lemma {:induction false} NearestIs(chunks: seq<DataChunk>, begin: nat, i: nat, c: int)
    requires -1 <= c < i <= begin < |chunks| && (c >= 0 ==> chunks[c].size > 0)
    requires forall e :: c < e < begin ==> chunks[e].size == 0
    ensures Nearest(chunks, begin, i) ==
            if c == -1 then begin else if chunks[c].size < DATA_FILE_MAX - BODY_MAX then c else c + 1
  {
    if c < i - 1 {
      NearestIs(chunks, begin, i - 1, c);
    }
  }

  lemma Opening(b: Before, chunks: seq<DataChunk>, begin: nat)
    requires Sound(b) && begin == b.begin && |chunks| == |b.logs|
    requires forall c :: 0 <= c < |chunks| ==> ChunkIs(chunks[c], b.logs[c])
    ensures var dst := Nearest(chunks, begin, begin);
            var now := if dst == begin then b.logs[begin := []] else b.logs;
            && Files(b, chunks[dst := BeginWriting(chunks[dst], dst, begin)], now, begin, dst, 0)
            && Pointers(b, b.htree, now, begin, dst, 0)
            && Order(b, now, dst, [])
  {
    hide EncodeAll, Nearest, RecAt;
    var dst := Nearest(chunks, begin, begin);
    var now := if dst == begin then b.logs[begin := []] else b.logs;
    EmptyLog();
    var c := BeginWriting(chunks[dst], dst, begin);
    assert ChunkIs(chunks[dst], b.logs[dst]);
    assert c.file[..0] == EncodeAll([]) && c.file[..|c.file|] == c.file
           && EncodeAll(b.logs[dst])[..] == EncodeAll(b.logs[dst]);
    forall e | dst < e < begin
      ensures now[e] == []
    {
      assert ChunkIs(chunks[e], b.logs[e]);
      OffsetInside(b.logs[e], 0);
      assert b.logs[e][..0] == [];
    }
    OpeningOrder(b, now, dst);
  }

  lemma OpeningOrder(b: Before, now: seq<seq<Record>>, dst: nat)
    requires b.begin < |b.logs| && dst <= b.begin
    requires now == if dst == b.begin then b.logs[b.begin := []] else b.logs
    requires forall e :: dst < e < b.begin ==> now[e] == []
    ensures Order(b, now, dst, [])
  {
    hide Flat;
    var pre := b.logs[..b.begin];
    FlatNext(now, dst);
    assert Flat(pre) + [] == Flat(pre);
    FlatNil<Record>();
    if dst == b.begin {
      assert now[..dst] == pre;
    } else {
      FlatTail(pre, dst + 1, b.begin);
      assert pre[..dst + 1] == now[..dst + 1] && pre[b.begin..] == [];
      assert Flat(pre[..dst + 1]) + [] == Flat(pre[..dst + 1]);
    }
  }

  lemma IsFile(chunks: seq<DataChunk>, logs: seq<seq<Record>>)
    requires |chunks| == |logs| && forall c :: 0 <= c < |chunks| ==> ChunkIs(chunks[c], logs[c])
    ensures forall c :: 0 <= c < |chunks| ==> chunks[c].file == EncodeAll(logs[c])
  {
  }

  // ----- a client writes while the collection runs

  /** A set or delete that a client made: its record and the chunk it was appended to. */
  datatype ClientWrite = ClientWrite(rec: Record, vhash: u16, chunk: nat)

  /** The state a collection is compared with, once the write is in: the log with one
      more record, the entry of its key leading there. */
  function Add(b: Before, w: ClientWrite): (b': Before)
    requires w.chunk < |b.logs|
    ensures b'.begin == b.begin && b'.end == b.end && |b'.logs| == |b.logs|
  {
    var log := b.logs[w.chunk];
    b.(logs := b.logs[w.chunk := log + [w.rec]],
       htree := b.htree[w.rec.key := Entry(Position(w.chunk, |EncodeAll(log)|), w.rec.ver, w.vhash)])
  }

  /** dataChunk.AppendRecord; what is still buffered counts as part of the file. */
  function Appended(c: DataChunk, r: Record): DataChunk {
    c.(file := c.file + Encode(r), size := c.size + Size(r), writingHead := c.size + Size(r))
  }

  /** A write above the range leaves every other key its record. */
  lemma AddOther(b: Before, w: ClientWrite, k: Key)
    requires Sound(b) && w.chunk < |b.logs| && k in b.htree && k != w.rec.key
    ensures k in Add(b, w).htree && EntryOk(b, k) && EntryOk(Add(b, w), k) && Rec0(Add(b, w), k) == Rec0(b, k)
  {
    hide EncodeAll, RecAt;
    assert EntryOk(b, k);
    var p, log := b.htree[k].pos, b.logs[w.chunk];
    if p.chunk == w.chunk {
      RecAtSnoc(log, w.rec, p.offset);
      InsideLog(log, p.offset);
    }
  }

  lemma AddOwn(b: Before, w: ClientWrite)
    requires w.chunk < |b.logs|
    ensures w.rec.key in Add(b, w).htree && EntryOk(Add(b, w), w.rec.key) && Rec0(Add(b, w), w.rec.key) == w.rec
  {
    hide EncodeAll, RecAt;
    RecAtSnoc(b.logs[w.chunk], w.rec, |EncodeAll(b.logs[w.chunk])|);
  }

  lemma AddSound(b: Before, w: ClientWrite)
    requires Sound(b) && b.end < w.chunk < |b.logs| && Storable(w.rec)
    ensures Sound(Add(b, w))
  {
    hide EncodeAll, RecAt;
    var b' := Add(b, w);
    forall k | k in b'.htree
      ensures EntryOk(b', k)
    {
      if k == w.rec.key {
        AddOwn(b, w);
      } else {
        AddOther(b, w, k);
      }
    }
  }

  lemma AddFiles(b: Before, w: ClientWrite, chunks: seq<DataChunk>, now: seq<seq<Record>>, src: nat, dst: nat, rd: nat)
    requires w.chunk < |b.logs| && dst < w.chunk && src <= w.chunk && Files(b, chunks, now, src, dst, rd)
    ensures |chunks| == |now| == |b.logs|
    ensures src == dst ==> Add(b, w).logs[src] == b.logs[src]
    ensures Files(Add(b, w), chunks[w.chunk := Appended(chunks[w.chunk], w.rec)],
                  now[w.chunk := now[w.chunk] + [w.rec]], src, dst, rd)
  {
    hide EncodeAll, Encode, Size, DstIs, InPlace;
    EncodeAllSnoc(now[w.chunk], w.rec);
    assert ChunkIs(chunks[w.chunk], now[w.chunk]);
  }

  lemma AddPointers(b: Before, w: ClientWrite, htree: map<Key, Entry>, now: seq<seq<Record>>, src: nat, dst: nat,
                    rd: nat)
    requires Sound(b) && b.end < w.chunk < |b.logs| == |now| && Storable(w.rec)
    requires dst < w.chunk && now[w.chunk] == b.logs[w.chunk] && Sound(Add(b, w))
    requires src < w.chunk || (src == w.chunk && rd == 0)
    requires Pointers(b, htree, now, src, dst, rd)
    ensures var e := Entry(Position(w.chunk, |EncodeAll(b.logs[w.chunk])|), w.rec.ver, w.vhash);
            Pointers(Add(b, w), htree[w.rec.key := e], now[w.chunk := now[w.chunk] + [w.rec]], src, dst, rd)
  {
    hide EncodeAll, RecAt;
    var b', now' := Add(b, w), now[w.chunk := now[w.chunk] + [w.rec]];
    var htree' := htree[w.rec.key := Entry(Position(w.chunk, |EncodeAll(b.logs[w.chunk])|), w.rec.ver, w.vhash)];
    forall k | k in htree'
      ensures PointerOk(b', htree'[k], k, now', src, dst, rd)
    {
      if k == w.rec.key {
        AddOwn(b, w);
      } else {
        AddOther(b, w, k);
        assert PointerOk(b, htree[k], k, now, src, dst, rd);
      }
    }
  }

  lemma AddOrder(b: Before, w: ClientWrite, now: seq<seq<Record>>, dst: nat, kept: seq<Record>)
    requires b.begin <= w.chunk < |b.logs| == |now| && dst < w.chunk && Order(b, now, dst, kept)
    ensures Order(Add(b, w), now[w.chunk := now[w.chunk] + [w.rec]], dst, kept)
  {
    hide Flat;
    assert now[w.chunk := now[w.chunk] + [w.rec]][..dst + 1] == now[..dst + 1];
    assert Add(b, w).logs[..b.begin] == b.logs[..b.begin];
  }
}
