/**
  The history of a bucket's writes, and what its parts must hold for a history:
  the log a record per write, the tree the last write of each hash, the index the
  items of each chunk in order, the collision table last writes of some keys.
*/
module Writes {
  import opened Bytes
  import opened Records
  import opened DataStore
  import opened HintItems
  import opened Collision
  import opened Leaf
  import opened Nibbles

  datatype Write = Write(rec: Record, vhash: u16, chunk: u16, offset: u32)

  type KeyHash = Key -> u64

  // ----- last writes

  function KeyLast(ws: seq<Write>, k: Key): (r: Option<Write>)
    ensures r.Some? ==> r.value in ws && r.value.rec.key == k
  {
    if ws == [] then None
    else if ws[|ws| - 1].rec.key == k then Some(ws[|ws| - 1])
    else KeyLast(ws[..|ws| - 1], k)
  }

  function HashLast(hash: KeyHash, ws: seq<Write>, h: u64): (r: Option<Write>)
    ensures r.Some? ==> r.value in ws && hash(r.value.rec.key) == h
  {
    if ws == [] then None
    else if hash(ws[|ws| - 1].rec.key) == h then Some(ws[|ws| - 1])
    else HashLast(hash, ws[..|ws| - 1], h)
  }

  /** The last write of a hash is the last write of its own key. */
  lemma {:induction false} HashLastIsKeyLast(hash: KeyHash, ws: seq<Write>, h: u64)
    requires HashLast(hash, ws, h).Some?
    ensures KeyLast(ws, HashLast(hash, ws, h).value.rec.key) == HashLast(hash, ws, h)
  {
    if hash(ws[|ws| - 1].rec.key) != h {
      HashLastIsKeyLast(hash, ws[..|ws| - 1], h);
    }
  }

  lemma {:induction false} KeyHasHash(hash: KeyHash, ws: seq<Write>, k: Key)
    requires KeyLast(ws, k).Some?
    ensures HashLast(hash, ws, hash(k)).Some?
  {
    if ws[|ws| - 1].rec.key != k {
      KeyHasHash(hash, ws[..|ws| - 1], k);
    }
  }

  lemma KeyLastSnoc(ws: seq<Write>, w: Write, k: Key)
    ensures KeyLast(ws + [w], k) == if w.rec.key == k then Some(w) else KeyLast(ws, k)
  {
    assert (ws + [w])[..|ws|] == ws;
  }

  lemma HashLastSnoc(hash: KeyHash, ws: seq<Write>, w: Write, h: u64)
    ensures HashLast(hash, ws + [w], h) == if hash(w.rec.key) == h then Some(w) else HashLast(hash, ws, h)
  {
    assert (ws + [w])[..|ws|] == ws;
  }

  // ----- the tree

  function EntryOf(w: Write): Item {
    Item(w.rec.ver, w.vhash, w.chunk, w.offset)
  }

  function TreeEntry(hash: KeyHash, ws: seq<Write>, h: u64): Option<Item> {
    match HashLast(hash, ws, h)
    case Some(w) => Some(EntryOf(w))
    case None => None
  }

  // ----- the log

  /** The record is in the log of its chunk, at its offset. */
  ghost predicate InLog(s: State, w: Write) {
    w.chunk < |s.chunks| && w.chunk <= s.newHead && exists m: nat :: At(s, w, m)
  }

  ghost predicate At(s: State, w: Write, m: nat)
    requires w.chunk < |s.chunks|
  {
    var log := s.chunks[w.chunk].log;
    m < |log| && log[m] == w.rec && Offset(log, m) == w.offset
  }

  ghost predicate AllInLog(s: State, ws: seq<Write>) {
    forall i :: 0 <= i < |ws| ==> InLog(s, ws[i])
  }

  lemma StillInLog(s: State, step: Step, w: Write)
    requires LogInv(s) && Enabled(s, step) && InLog(s, w)
    ensures InLog(Apply(s, step), w)
  {
    hide EncodeAll, LogInv;
    var m: nat :| At(s, w, m);
    StepGrows(s, step, w.chunk);
    var s' := Apply(s, step);
    var log, log' := s.chunks[w.chunk].log, s'.chunks[w.chunk].log;
    assert log'[..m] == log[..m];
    assert At(s', w, m);
  }

  /** A position in the log reads back its record, from the buffer or the file. */
  lemma ReadNow(s: State, w: Write)
    requires LogInv(s) && InLog(s, w)
    ensures Read(s.chunks[w.chunk], s.chunks[w.chunk], w.offset) == Some(w.rec)
  {
    hide EncodeAll, Size, Encode, ReadAt, InBuffer;
    var m: nat :| At(s, w, m);
    var c := s.chunks[w.chunk];
    assert ChunkOk(c) && DiskOk(s.flusher, w.chunk, c);
    if m >= Gone(c) {
      BufferHit(c, m);
    } else {
      BufferMiss(c, m);
      HoldsOnDisk(s.flusher, w.chunk, c, m);
      HoldsRead(c.disk, w.offset, w.rec);
    }
  }

  function Pos(w: Write): nat {
    w.chunk * 0x1_0000_0000 + w.offset
  }

  /** An append goes to an aligned place after everything in the log: the end of the last
      chunk if it fits there, else the start of the next. */
  lemma Appended(s: State, r: Record, w: Write)
    requires LogInv(s) && Enabled(s, Append(r))
    ensures var p := AppendTarget(s, r); p.offset < 0x1_0000_0000 && p.offset % 256 == 0 && 0 <= p.chunk < MAX_NUM_CHUNK
    ensures var p := AppendTarget(s, r);
            InLog(s, w) ==> w.chunk * 0x1_0000_0000 + w.offset < p.chunk * 0x1_0000_0000 + p.offset
    ensures var end := |EncodeAll(s.chunks[s.newHead].log)|;
            AppendTarget(s, r) ==
            if end + Size(r) <= DATA_FILE_MAX then Position(s.newHead, end) else Position(s.newHead + 1, 0)
  {
    hide EncodeAll, Size, Encode, DiskOk;
    var p := AppendTarget(s, r);
    var c := s.chunks[s.newHead];
    assert ChunkOk(c);
    EncodeAllAligned(c.log);
    if InLog(s, w) && w.chunk == s.newHead {
      var m: nat :| At(s, w, m);
      OffsetsGrow(c.log, m, |c.log|);
      assert c.log[..|c.log|] == c.log;
    }
  }

  lemma AppendInLog(s: State, r: Record, vhash: u16)
    requires LogInv(s) && Enabled(s, Append(r))
    ensures var p := AppendTarget(s, r);
            p.offset < 0x1_0000_0000 && 0 <= p.chunk < 0x1_0000
              && InLog(Apply(s, Append(r)), Write(r, vhash, p.chunk, p.offset))
  {
    hide EncodeAll, Size, Encode, DiskOk;
    var p := AppendTarget(s, r);
    var w0 := Write(r, vhash, 0, 0);
    Appended(s, r, w0);
    EmptyLog();
    var c := s.chunks[p.chunk];
    assert ChunkOk(c);
    var s' := Apply(s, Append(r));
    var log := c.log;
    assert (log + [r])[..|log|] == log;
    assert At(s', Write(r, vhash, p.chunk, p.offset), |log|);
  }

  // ----- the index

  function HintOf(hash: KeyHash, w: Write): HintItem {
    HintItem(hash(w.rec.key), 0, w.offset, w.rec.ver, w.vhash, w.rec.key)
  }

  /** The items of the writes to one chunk. */
  function HintsOf(hash: KeyHash, ws: seq<Write>, c: nat): seq<HintItem> {
    if ws == [] then []
    else
      var rest := HintsOf(hash, ws[..|ws| - 1], c);
      if ws[|ws| - 1].chunk == c then rest + [HintOf(hash, ws[|ws| - 1])] else rest
  }

  lemma HintsSnoc(hash: KeyHash, ws: seq<Write>, w: Write, c: nat)
    ensures HintsOf(hash, ws + [w], c) == if w.chunk == c then HintsOf(hash, ws,
            c) + [HintOf(hash, w)] else HintsOf(hash, ws, c)
  {
    assert (ws + [w])[..|ws|] == ws;
  }

  ghost predicate Rising(ws: seq<Write>) {
    forall i, j :: 0 <= i < j < |ws| ==> Pos(ws[i]) < Pos(ws[j])
  }

  /** In every chunk, the index has the chunk's last item of a key; no chunk after that
      of the key's last write has any. */
  lemma {:induction false} IndexLast(hash: KeyHash, ws: seq<Write>, k: Key, c: nat)
    requires Rising(ws)
    ensures match KeyLast(ws, k)
            case Some(w) =>
              && (c == w.chunk ==> Last(HintsOf(hash, ws, c), hash(k), k) == Some(HintOf(hash, w)))
              && (c > w.chunk ==> Last(HintsOf(hash, ws, c), hash(k), k) == None)
            case None => Last(HintsOf(hash, ws, c), hash(k), k) == None
  {
    hide Last;
    if ws == [] {
      NoItem(hash(k), k);
    } else {
      var m := |ws| - 1;
      var w, init := ws[m], ws[..m];
      IndexLast(hash, init, k, c);
      LastSnoc(HintsOf(hash, init, c), HintOf(hash, w), hash(k), k);
      if w.rec.key == k && c > w.chunk {
        IndexAfter(hash, init, w, k, c);
      }
    }
  }

  lemma NoItem(h: u64, k: Key)
    ensures Last([], h, k) == None
  {
  }

  lemma {:induction false} IndexAfter(hash: KeyHash, ws: seq<Write>, w: Write, k: Key, c: nat)
    requires forall i :: 0 <= i < |ws| ==> Pos(ws[i]) < Pos(w)
    requires c > w.chunk
    ensures HintsOf(hash, ws, c) == [] && Last(HintsOf(hash, ws, c), hash(k), k) == None
  {
    if ws != [] {
      IndexAfter(hash, ws[..|ws| - 1], w, k, c);
      assert Pos(ws[|ws| - 1]) < Pos(w);
    }
  }

  // ----- the collision table

  ghost predicate Agrees(it: HintItem, w: Write) {
    it.chunk == w.chunk && it.offset == w.offset && it.ver == w.rec.ver && it.key == w.rec.key
  }

  /** Whatever the table holds for a key is its last write. */
  ghost predicate TableAgrees(hash: KeyHash, t: Table, ws: seq<Write>) {
    forall h, k :: Filed(t, h, k).Some? ==>
      hash(k) == h && KeyLast(ws, k).Some? && Agrees(Filed(t, h, k).value, KeyLast(ws, k).value)
  }

  // ----- where writes belong

  /** Every written key belongs to the bucket, its record fits a data file, and its place is
      aligned. */
  ghost predicate Routed(hash: KeyHash, bp: seq<nat>, ws: seq<Write>) {
    forall w :: w in ws ==> HasPrefix(hash(w.rec.key), bp) && Storable(w.rec) && w.offset % 256 == 0
  }
}
