/**
  The append log of a bucket: chunks with a write buffer, rotation, and a
  flusher that runs concurrently with appends and reads.

  Every section the program runs under a lock is one atomic step here, as are
  the file operations of the flusher; a run is any interleaving of steps. The
  buffered file writer may pass any part of its bytes on to the file at any time.
*/
module DataStore {
  import opened Bytes
  import opened Records

  const MAX_NUM_CHUNK := 998
  const DATA_FILE_MAX: u32

  datatype Position = Position(chunk: int, offset: nat)
  datatype WriteRecord = WriteRecord(rec: Record, offset: nat)

  /** `log` is a history variable: every record the chunk ever took, in order. */
  datatype Chunk = Chunk(disk: seq<byte>, wbuf: seq<WriteRecord>, size: nat, writingHead: nat, log: seq<Record>)

  datatype Flusher =
    | Idle
    | Locked(chunk: nat)
    | Opened(chunk: nat, woffset: nat)
    | Checked(chunk: nat)
    | Writing(chunk: nat, n: nat, i: nat, pending: seq<byte>, flushed: nat)
    | Flushed(chunk: nat, n: nat, flushed: nat)
    | Dropped(chunk: nat, flushed: nat)

  datatype State = State(chunks: seq<Chunk>, newHead: nat, wbufSize: u32, flusher: Flusher)

  datatype Step =
    | Append(rec: Record)   // dataStore.AppendRecord
    | Lock(chunk: int)      // flush: flushLock taken, chunk chosen
    | Open                  // flush: the file is opened at its end
    | Check                 // flush: file length compared with getDiskFileSize
    | Snapshot              // dataChunk.flush: n taken
    | WriteNext             // dataChunk.flush: record i handed to the file writer
    | Spill(k: nat)         // the file writer passes k bytes on
    | Sync                  // dataChunk.flush: the file writer is emptied
    | Drop                  // dataChunk.flush: the first n records leave the buffer
    | Subtract              // flush: wbufSize lowered, locks released

  // ----- the steps

  function DiskFileSize(c: Chunk): nat {
    if |c.wbuf| > 0 then c.wbuf[0].offset else c.size
  }

  function AppendTarget(s: State, r: Record): (p: Position)
    requires s.newHead < |s.chunks|
    ensures p.chunk == s.newHead || p.chunk == s.newHead + 1
  {
    var curr := s.chunks[s.newHead].writingHead;
    if curr + Size(r) > DATA_FILE_MAX then Position(s.newHead + 1, 0) else Position(s.newHead, curr)
  }

  function AppendChunk(c: Chunk, r: Record, offset: nat): Chunk {
    var head := c.writingHead + Size(r);
    c.(wbuf := c.wbuf + [WriteRecord(r, offset)], writingHead := head, size := head, log := c.log + [r])
  }

  ghost predicate Enabled(s: State, step: Step) {
    && s.newHead < |s.chunks|
    && match step
       case Append(r) => Storable(r) && AppendTarget(s, r).chunk < |s.chunks|
       case Lock(c) => s.flusher.Idle? && s.wbufSize != 0 && c <= s.newHead
       case Open => s.flusher.Locked?
       case Check => s.flusher.Opened?
       case Snapshot => s.flusher.Checked?
       case WriteNext => s.flusher.Writing? && s.flusher.i < s.flusher.n && s.flusher.chunk < |s.chunks|
         && s.flusher.n <= |s.chunks[s.flusher.chunk].wbuf|
       case Spill(k) => s.flusher.Writing? && s.flusher.chunk < |s.chunks| && k <= |s.flusher.pending|
       case Sync => s.flusher.Writing? && s.flusher.i == s.flusher.n && s.flusher.chunk < |s.chunks|
       case Drop => s.flusher.Flushed? && s.flusher.chunk < |s.chunks|
         && s.flusher.n <= |s.chunks[s.flusher.chunk].wbuf|
       case Subtract => s.flusher.Dropped?
  }

  function Apply(s: State, step: Step): State
    requires Enabled(s, step)
  {
    match step
    case Append(r) =>
      var p := AppendTarget(s, r);
      s.(chunks := s.chunks[p.chunk := AppendChunk(s.chunks[p.chunk], r, p.offset)],
         newHead := p.chunk,
         wbufSize := (s.wbufSize + Size(r)) % 0x1_0000_0000)
    case Lock(c) => s.(flusher := Locked(if c < 0 then s.newHead else c))
    case Open =>
      var c := s.flusher.chunk;
      s.(flusher := Opened(c, if c < |s.chunks| then |s.chunks[c].disk| else 0))
    case Check => s.(flusher := Checked(s.flusher.chunk))
    case Snapshot =>
      var c := s.flusher.chunk;
      s.(flusher := Writing(c, if c < |s.chunks| then |s.chunks[c].wbuf| else 0, 0, [], 0))
    case WriteNext =>
      var f := s.flusher;
      var r := s.chunks[f.chunk].wbuf[f.i].rec;
      s.(flusher := f.(i := f.i + 1, pending := f.pending + Encode(r), flushed := f.flushed + Size(r)))
    case Spill(k) =>
      var f := s.flusher;
      var c := s.chunks[f.chunk];
      s.(chunks := s.chunks[f.chunk := c.(disk := c.disk + f.pending[..k])], flusher := f.(pending := f.pending[k..]))
    case Sync =>
      var f := s.flusher;
      var c := s.chunks[f.chunk];
      s.(chunks := s.chunks[f.chunk := c.(disk := c.disk + f.pending)], flusher := Flushed(f.chunk, f.n, f.flushed))
    case Drop =>
      var f := s.flusher;
      var c := s.chunks[f.chunk];
      s.(chunks := s.chunks[f.chunk := c.(wbuf := c.wbuf[f.n..])], flusher := Dropped(f.chunk, f.flushed))
    case Subtract =>
      s.(wbufSize := (s.wbufSize - s.flusher.flushed) % 0x1_0000_0000, flusher := Idle)
  }

  // ----- what every step keeps

  /** Number of records that left the buffer. */
  function Gone(c: Chunk): nat
    requires |c.wbuf| <= |c.log|
  {
    |c.log| - |c.wbuf|
  }

  /** The buffer holds the tail of the log, each record with its file offset. */
  ghost predicate ChunkOk(c: Chunk) {
    && |c.wbuf| <= |c.log|
    && (forall k :: 0 <= k < |c.log| ==> Storable(c.log[k]))
    && (forall j :: 0 <= j < |c.wbuf| ==>
          c.wbuf[j] == WriteRecord(c.log[Gone(c) + j], Offset(c.log, Gone(c) + j)))
    && c.size == c.writingHead == |EncodeAll(c.log)|
  }

  /** How many buffered records the flusher has already passed on. */
  function Passed(f: Flusher, c: nat): nat {
    if f.Writing? && f.chunk == c then f.i
    else if f.Flushed? && f.chunk == c then f.n
    else 0
  }

  function Pending(f: Flusher, c: nat): seq<byte> {
    if f.Writing? && f.chunk == c then f.pending else []
  }

  /** The file, with what the file writer still holds, is a prefix of the log. */
  ghost predicate DiskOk(f: Flusher, id: nat, c: Chunk)
    requires |c.wbuf| <= |c.log|
  {
    && Passed(f, id) <= |c.wbuf|
    && Offset(c.log, Gone(c)) <= |c.disk|
    && c.disk + Pending(f, id) == EncodeAll(c.log[..Gone(c) + Passed(f, id)])
  }

  /** Bytes of the first n buffered records. */
  function HeadBytes(c: Chunk, n: nat): int
    requires |c.wbuf| <= |c.log| && n <= |c.wbuf|
  {
    Offset(c.log, Gone(c) + n) - Offset(c.log, Gone(c))
  }

  ghost predicate FlusherOk(f: Flusher, c: Chunk)
    requires !f.Idle? && |c.wbuf| <= |c.log|
  {
    match f
    case Opened(_, woffset) => woffset == |c.disk|
    case Writing(_, n, i, _, flushed) => i <= n <= |c.wbuf| && flushed == HeadBytes(c, i)
    case Flushed(_, n, flushed) => n <= |c.wbuf| && flushed == HeadBytes(c, n)
    case _ => true
  }

  ghost predicate LogInv(s: State) {
    && |s.chunks| == MAX_NUM_CHUNK && s.newHead < MAX_NUM_CHUNK
    && (forall c :: 0 <= c < |s.chunks| ==> ChunkOk(s.chunks[c]) && DiskOk(s.flusher, c, s.chunks[c]))
    && (forall c :: s.newHead < c < |s.chunks| ==> s.chunks[c].log == [])
    && (s.flusher.Idle? || (s.flusher.chunk <= s.newHead && FlusherOk(s.flusher, s.chunks[s.flusher.chunk])))
  }

  lemma OffsetPrefix(log: seq<Record>, r: Record, j: nat)
    requires j <= |log|
    ensures Offset(log + [r], j) == Offset(log, j)
  {
    assert (log + [r])[..j] == log[..j];
  }

  lemma AppendKeepsChunk(c: Chunk, r: Record)
    requires ChunkOk(c) && Storable(r)
    ensures ChunkOk(AppendChunk(c, r, c.writingHead))
    ensures Gone(AppendChunk(c, r, c.writingHead)) == Gone(c)
    ensures forall j :: 0 <= j <= |c.log| ==> (c.log + [r])[..j] == c.log[..j]
  {
    hide EncodeAll, Size, Encode;
    var c' := AppendChunk(c, r, c.writingHead);
    EncodeAllSnoc(c.log, r);
    forall j | 0 <= j < |c'.wbuf|
      ensures c'.wbuf[j] == WriteRecord(c'.log[Gone(c') + j], Offset(c'.log, Gone(c') + j))
    {
      OffsetPrefix(c.log, r, Gone(c) + j);
      if j == |c.wbuf| {
        assert c.log[..|c.log|] == c.log;
      }
    }
  }

  /** A step that changes one chunk needs to be checked on that chunk only. */
  lemma OneChunk(s: State, s': State, id: nat)
    requires LogInv(s) && id < |s.chunks| == |s'.chunks| && s'.chunks == s.chunks[id := s'.chunks[id]]
    requires s.newHead <= s'.newHead < MAX_NUM_CHUNK
    requires ChunkOk(s'.chunks[id]) && DiskOk(s'.flusher, id, s'.chunks[id])
    requires s'.newHead < id ==> s'.chunks[id].log == []
    requires forall c: nat :: c != id ==>
               Passed(s'.flusher, c) == Passed(s.flusher, c) && Pending(s'.flusher, c) == Pending(s.flusher, c)
    requires s'.flusher.Idle? || (s'.flusher.chunk <= s'.newHead && FlusherOk(s'.flusher, s'.chunks[s'.flusher.chunk]))
    ensures LogInv(s')
  {
    hide ChunkOk, EncodeAll;
    forall c | 0 <= c < |s'.chunks|
      ensures ChunkOk(s'.chunks[c]) && |s'.chunks[c].wbuf| <= |s'.chunks[c].log| && DiskOk(s'.flusher, c, s'.chunks[c])
    {
      if c != id {
        assert s'.chunks[c] == s.chunks[c];
      }
    }
  }

  lemma AppendStep(s: State, r: Record)
    requires LogInv(s) && Enabled(s, Append(r))
    ensures LogInv(Apply(s, Append(r)))
  {
    hide EncodeAll, Size, Encode;
    var s' := Apply(s, Append(r));
    var p := AppendTarget(s, r);
    var c := s.chunks[p.chunk];
    if p.chunk == s.newHead + 1 {
      EmptyLog();
      assert c.log == [];
    }
    AppendKeepsChunk(c, r);
    assert s'.chunks[p.chunk] == AppendChunk(c, r, c.writingHead);
    OneChunk(s, s', p.chunk);
  }

  lemma EmptyLog()
    ensures |EncodeAll([])| == 0
  {
  }

  lemma SpillStep(s: State, k: nat)
    requires LogInv(s) && Enabled(s, Spill(k))
    ensures LogInv(Apply(s, Spill(k)))
  {
    hide EncodeAll, Encode, Size;
    var f := s.flusher;
    var id, c, s' := f.chunk, s.chunks[f.chunk], Apply(s, Spill(k));
    assert ChunkOk(c) && DiskOk(f, id, c);
    assert f.pending == f.pending[..k] + f.pending[k..];
    ConcatAssoc(c.disk, f.pending[..k], f.pending[k..]);
    OneChunk(s, s', id);
  }

  lemma SyncStep(s: State)
    requires LogInv(s) && Enabled(s, Sync)
    ensures LogInv(Apply(s, Sync))
  {
    hide EncodeAll, Encode, Size;
    var f := s.flusher;
    var id, c, s' := f.chunk, s.chunks[f.chunk], Apply(s, Sync);
    assert ChunkOk(c) && DiskOk(f, id, c);
    assert c.disk + f.pending + [] == c.disk + f.pending;
    OneChunk(s, s', id);
  }

  lemma DropStep(s: State)
    requires LogInv(s) && Enabled(s, Drop)
    ensures LogInv(Apply(s, Drop))
  {
    hide EncodeAll, Encode, Size;
    var f := s.flusher;
    var id, c, s' := f.chunk, s.chunks[f.chunk], Apply(s, Drop);
    assert ChunkOk(c) && DiskOk(f, id, c);
    assert s'.chunks[id].log == c.log && Gone(s'.chunks[id]) == Gone(c) + f.n;
    OneChunk(s, s', id);
  }

  lemma WriteStep(s: State)
    requires LogInv(s) && Enabled(s, WriteNext)
    ensures LogInv(Apply(s, WriteNext))
  {
    hide EncodeAll, Encode, Size;
    var f := s.flusher;
    var id, c, s' := f.chunk, s.chunks[f.chunk], Apply(s, WriteNext);
    assert ChunkOk(c) && DiskOk(f, id, c);
    var j := Gone(c) + f.i;
    assert c.wbuf[f.i].rec == c.log[j];
    EncodeAllAt(c.log, j);
    assert c.log[..j + 1] == c.log[..j] + [c.log[j]];
    EncodeAllSnoc(c.log[..j], c.log[j]);
    ConcatAssoc(c.disk, f.pending, Encode(c.log[j]));
    OneChunk(s, s', id);
  }

  lemma ControlSteps(s: State, step: Step)
    requires LogInv(s) && Enabled(s, step)
    requires step.Lock? || step.Open? || step.Check? || step.Snapshot? || step.Subtract?
    ensures LogInv(Apply(s, step))
  {
    hide EncodeAll, ChunkOk;
    var s' := Apply(s, step);
    forall c | 0 <= c < |s'.chunks|
      ensures ChunkOk(s'.chunks[c]) && |s'.chunks[c].wbuf| <= |s'.chunks[c].log| && DiskOk(s'.flusher, c, s'.chunks[c])
    {
      assert DiskOk(s.flusher, c, s.chunks[c]);
    }
  }

  lemma StepKeeps(s: State, step: Step)
    requires LogInv(s) && Enabled(s, step)
    ensures LogInv(Apply(s, step))
  {
    hide LogInv, Apply;
    match step
    case Append(r) => AppendStep(s, r);
    case Spill(k) => SpillStep(s, k);
    case Sync => SyncStep(s);
    case Drop => DropStep(s);
    case WriteNext => WriteStep(s);
    case _ => ControlSteps(s, step);
  }

  // ----- reading

  datatype Lookup = Hit(rec: Record) | Miss | Bug

  /** The first buffered record at or after an offset. */
  function Search(wbuf: seq<WriteRecord>, offset: nat): (i: nat)
    ensures i <= |wbuf|
    ensures forall j :: 0 <= j < i ==> wbuf[j].offset < offset
    ensures i < |wbuf| ==> wbuf[i].offset >= offset
  {
    if wbuf == [] then 0
    else if wbuf[0].offset >= offset then 0
    else
      var i := Search(wbuf[1..], offset);
      assert forall j :: 1 <= j < i + 1 ==> wbuf[j] == wbuf[1..][j - 1];
      i + 1
  }

  lemma {:induction false} SearchIs(wbuf: seq<WriteRecord>, offset: nat, i: nat)
    requires i <= |wbuf| && forall j :: 0 <= j < i ==> wbuf[j].offset < offset
    requires i < |wbuf| ==> wbuf[i].offset >= offset
    ensures Search(wbuf, offset) == i
  {
    if i > 0 {
      SearchIs(wbuf[1..], offset, i - 1);
    }
  }

  /** dataChunk.GetRecordByOffsetInBuffer; Bug stands for its error returns. */
  function InBuffer(c: Chunk, offset: nat): Lookup {
    var n := |c.wbuf|;
    if n == 0 || offset < c.wbuf[0].offset || offset >= c.writingHead then Miss
    else
      var idx := Search(c.wbuf, offset);
      if idx >= n then Bug
      else if c.wbuf[idx].offset == offset then Hit(c.wbuf[idx].rec)
      else Bug
  }

  /** Buffered records are in the order of their offsets. */
  lemma BufferSorted(c: Chunk)
    requires ChunkOk(c)
    ensures forall i, j :: 0 <= i < j < |c.wbuf| ==> c.wbuf[i].offset <= c.wbuf[j].offset
  {
    hide EncodeAll, Size, Encode;
    forall i, j | 0 <= i < j < |c.wbuf|
      ensures c.wbuf[i].offset <= c.wbuf[j].offset
    {
      OffsetsGrow(c.log, Gone(c) + i, Gone(c) + j);
    }
  }

  /** The binary search the program runs finds the same record. */
  method GetRecordByOffsetInBuffer(c: Chunk, offset: nat) returns (r: Lookup)
    requires ChunkOk(c)
    ensures r == InBuffer(c, offset)
  {
    hide ChunkOk;
    BufferSorted(c);
    var n := |c.wbuf|;
    if n == 0 || offset < c.wbuf[0].offset || offset >= c.writingHead {
      return Miss;
    }
    var lo, hi := 0, n;
    while lo < hi
      invariant 0 <= lo <= hi <= n
      invariant forall j :: 0 <= j < lo ==> c.wbuf[j].offset < offset
      invariant forall j :: hi <= j < n ==> c.wbuf[j].offset >= offset
    {
      var mid := lo + (hi - lo) / 2;
      if c.wbuf[mid].offset < offset {
        lo := mid + 1;
      } else {
        hi := mid;
      }
    }
    SearchIs(c.wbuf, offset, lo);
    if lo >= n {
      return Bug;
    }
    r := if c.wbuf[lo].offset == offset then Hit(c.wbuf[lo].rec) else Bug;
  }

  /** dataChunk.GetRecordByOffset: the buffer is asked first, under the lock; the
      file is read afterwards, possibly much later. */
  function Read(now: Chunk, later: Chunk, offset: nat): Option<Record> {
    match InBuffer(now, offset)
    case Hit(r) => Some(r)
    case Miss => ReadAt(later.disk, offset)
    case Bug => None
  }

  lemma {:induction false} OffsetsGrow(log: seq<Record>, i: nat, j: nat)
    requires i < j <= |log|
    ensures Offset(log, i) < Offset(log, j)
  {
    hide EncodeAll, Encode;
    EncodeAllAt(log, j - 1);
    if i < j - 1 {
      OffsetsGrow(log, i, j - 1);
    }
  }

  lemma BufferHit(c: Chunk, m: nat)
    requires ChunkOk(c) && Gone(c) <= m < |c.log|
    ensures InBuffer(c, Offset(c.log, m)) == Hit(c.log[m])
  {
    hide EncodeAll, Size, Encode;
    var g := Gone(c);
    var off := Offset(c.log, m);
    assert c.log[..|c.log|] == c.log;
    OffsetsGrow(c.log, m, |c.log|);
    if g < m {
      OffsetsGrow(c.log, g, m);
    }
    var i := Search(c.wbuf, off);
    assert c.wbuf[m - g].offset == off;
    assert i <= m - g;
    if i < m - g {
      OffsetsGrow(c.log, g + i, m);
    }
  }

  lemma BufferMiss(c: Chunk, m: nat)
    requires ChunkOk(c) && m < Gone(c)
    ensures InBuffer(c, Offset(c.log, m)) == Miss
  {
    hide EncodeAll, Size, Encode;
    OffsetsGrow(c.log, m, Gone(c));
  }

  lemma HoldsOnDisk(f: Flusher, id: nat, c: Chunk, m: nat)
    requires ChunkOk(c) && DiskOk(f, id, c) && m < Gone(c)
    ensures Holds(c.disk, Offset(c.log, m), c.log[m])
  {
    hide Encode, ReadAt, Size, EncodeAll;
    var n := Gone(c) + Passed(f, id);
    var pre := c.log[..n];
    var off := Offset(c.log, m);
    EncodeAllAt(pre, m);
    assert pre[..m] == c.log[..m] && pre[..m + 1] == c.log[..m + 1];
    if m + 1 < Gone(c) {
      OffsetsGrow(c.log, m + 1, Gone(c));
    }
    assert c.disk[off..off + Size(c.log[m])] == EncodeAll(pre)[off..off + Size(c.log[m])];
  }

  // ----- runs

  /** After loading: nothing buffered, every file holds whole records. */
  ghost predicate Init(s: State) {
    && |s.chunks| == MAX_NUM_CHUNK && s.newHead < MAX_NUM_CHUNK
    && s.flusher == Idle && s.wbufSize == 0
    && (forall c :: 0 <= c < |s.chunks| ==> Loaded(s.chunks[c]))
    && (forall c :: s.newHead < c < |s.chunks| ==> s.chunks[c].log == [])
  }

  ghost predicate Loaded(c: Chunk) {
    && c.wbuf == [] && c.disk == EncodeAll(c.log) && c.size == c.writingHead == |c.disk|
    && forall k :: 0 <= k < |c.log| ==> Storable(c.log[k])
  }

  ghost predicate Run(tr: seq<State>, steps: seq<Step>) {
    && |tr| == |steps| + 1 && Init(tr[0])
    && forall i :: 0 <= i < |steps| ==> Enabled(tr[i], steps[i]) && tr[i + 1] == Apply(tr[i], steps[i])
  }

  lemma InitKeeps(s: State)
    requires Init(s)
    ensures LogInv(s)
  {
    hide EncodeAll;
    forall c | 0 <= c < |s.chunks|
      ensures ChunkOk(s.chunks[c]) && DiskOk(s.flusher, c, s.chunks[c])
    {
      var ck := s.chunks[c];
      assert Loaded(ck);
      assert ck.log[..|ck.log|] == ck.log && ck.disk + [] == ck.disk;
    }
  }

  lemma {:induction false} RunKeeps(tr: seq<State>, steps: seq<Step>, i: nat)
    requires Run(tr, steps) && i < |tr|
    ensures LogInv(tr[i])
  {
    hide LogInv, Apply, Enabled, Init;
    if i == 0 {
      InitKeeps(tr[0]);
    } else {
      RunKeeps(tr, steps, i - 1);
      assert Enabled(tr[i - 1], steps[i - 1]);
      StepKeeps(tr[i - 1], steps[i - 1]);
    }
  }

  /** The length check of the flusher never fails, so it never stops the server. */
  lemma LengthCheckHolds(tr: seq<State>, steps: seq<Step>, i: nat)
    requires Run(tr, steps) && i < |tr| && tr[i].flusher.Opened?
    ensures var f := tr[i].flusher; f.chunk < |tr[i].chunks| && f.woffset == DiskFileSize(tr[i].chunks[f.chunk])
  {
    hide EncodeAll, Run;
    RunKeeps(tr, steps, i);
    var f := tr[i].flusher;
    var c := tr[i].chunks[f.chunk];
    assert ChunkOk(c) && DiskOk(f, f.chunk, c);
    assert c.disk + [] == c.disk;
    assert c.log[..|c.log|] == c.log;
  }

  lemma StepGrows(s: State, step: Step, id: nat)
    requires LogInv(s) && Enabled(s, step) && id < |s.chunks|
    ensures var s' := Apply(s, step);
            && |s'.chunks| == |s.chunks| && s.chunks[id].log <= s'.chunks[id].log
            && s.chunks[id].disk <= s'.chunks[id].disk
  {
    hide EncodeAll, ChunkOk, Size, Encode;
  }

  /** Logs and files only grow. */
  lemma {:induction false} RunGrows(tr: seq<State>, steps: seq<Step>, i: nat, j: nat, id: nat)
    requires Run(tr, steps) && i <= j < |tr| && id < MAX_NUM_CHUNK
    ensures |tr[i].chunks| == |tr[j].chunks| == MAX_NUM_CHUNK
    ensures tr[i].chunks[id].log <= tr[j].chunks[id].log && tr[i].chunks[id].disk <= tr[j].chunks[id].disk
    decreases j
  {
    hide Apply, Enabled, Init, LogInv, DiskOk, ChunkOk;
    ChunkAt(tr, steps, i, id);
    ChunkAt(tr, steps, j, id);
    if i < j {
      RunGrows(tr, steps, i, j - 1, id);
      RunKeeps(tr, steps, j - 1);
      assert Enabled(tr[j - 1], steps[j - 1]);
      StepGrows(tr[j - 1], steps[j - 1], id);
    }
  }

  /** Read your append: the position an append returned reads back that record at
      any later time, however appends, rotations and the flusher interleave, and
      even if the flusher works between the buffer lookup and the file read. */
  lemma ReadYourAppend(tr: seq<State>, steps: seq<Step>, i: nat, now: nat, later: nat, r: Record)
    requires Run(tr, steps) && i < now <= later < |tr| && steps[i] == Append(r)
    ensures tr[i].newHead < |tr[i].chunks|
    ensures var p := AppendTarget(tr[i], r);
            && p.chunk < |tr[now].chunks| && p.chunk < |tr[later].chunks|
            && Read(tr[now].chunks[p.chunk], tr[later].chunks[p.chunk], p.offset) == Some(r)
  {
    assert Enabled(tr[i], steps[i]) && tr[i + 1] == Apply(tr[i], steps[i]);
    var p := AppendTarget(tr[i], r);
    AppendedAt(tr, steps, i, r);
    hide EncodeAll, Size, Encode, ReadAt, InBuffer, Apply, Enabled, LogInv, ChunkOk;
    var id, m := p.chunk, |tr[i].chunks[p.chunk].log|;
    RunGrows(tr, steps, i + 1, now, id);
    RunGrows(tr, steps, now, later, id);
    var c := tr[now].chunks[id];
    assert c.log[..m] == tr[i + 1].chunks[id].log[..m];
    ChunkAt(tr, steps, now, id);
    if m >= Gone(c) {
      BufferHit(c, m);
    } else {
      BufferMiss(c, m);
      OnDiskLater(tr, steps, now, later, id, m);
    }
  }

  lemma ChunkAt(tr: seq<State>, steps: seq<Step>, i: nat, id: nat)
    requires Run(tr, steps) && i < |tr| && id < MAX_NUM_CHUNK
    ensures |tr[i].chunks| == MAX_NUM_CHUNK && ChunkOk(tr[i].chunks[id]) && DiskOk(tr[i].flusher, id, tr[i].chunks[id])
  {
    RunKeeps(tr, steps, i);
  }

  lemma AppendedAt(tr: seq<State>, steps: seq<Step>, i: nat, r: Record)
    requires Run(tr, steps) && i < |steps| && steps[i] == Append(r)
    requires Enabled(tr[i], steps[i]) && tr[i + 1] == Apply(tr[i], steps[i])
    ensures var p := AppendTarget(tr[i], r);
            && 0 <= p.chunk < MAX_NUM_CHUNK && |tr[i].chunks| == MAX_NUM_CHUNK
            && var log := tr[i].chunks[p.chunk].log;
               tr[i + 1].chunks[p.chunk].log == log + [r] && p.offset == Offset(log + [r], |log|)
  {
    hide EncodeAll, Size, Encode;
    RunKeeps(tr, steps, i);
    EmptyLog();
    var p := AppendTarget(tr[i], r);
    var log := tr[i].chunks[p.chunk].log;
    assert (log + [r])[..|log|] == log;
    assert ChunkOk(tr[i].chunks[p.chunk]);
  }

  lemma OnDiskLater(tr: seq<State>, steps: seq<Step>, now: nat, later: nat, id: nat, m: nat)
    requires Run(tr, steps) && now <= later < |tr| && id < MAX_NUM_CHUNK
    requires |tr[now].chunks| == |tr[later].chunks| == MAX_NUM_CHUNK
    requires var c := tr[now].chunks[id]; |c.wbuf| <= |c.log| && m < Gone(c)
    ensures var c := tr[now].chunks[id]; ReadAt(tr[later].chunks[id].disk, Offset(c.log, m)) == Some(c.log[m])
  {
    hide EncodeAll, Size, ReadAt, LogInv, Run, ChunkOk;
    ChunkAt(tr, steps, now, id);
    RunGrows(tr, steps, now, later, id);
    var c := tr[now].chunks[id];
    var d, d' := c.disk, tr[later].chunks[id].disk;
    HoldsOnDisk(tr[now].flusher, id, c, m);
    HoldsExtend(d, d'[|d|..], Offset(c.log, m), c.log[m]);
    assert d' == d + d'[|d|..];
    StorableAt(c, m);
    HoldsRead(d', Offset(c.log, m), c.log[m]);
  }

  lemma StorableAt(c: Chunk, m: nat)
    requires ChunkOk(c) && m < |c.log|
    ensures Storable(c.log[m])
  {
  }

  // ----- the buffer counter

  function Buffered(c: Chunk): int {
    if |c.wbuf| <= |c.log| then |EncodeAll(c.log)| - Offset(c.log, |c.log| - |c.wbuf|) else 0
  }

  function Total(cs: seq<Chunk>): int {
    if cs == [] then 0 else Buffered(cs[0]) + Total(cs[1..])
  }

  lemma {:induction false} TotalUpdate(cs: seq<Chunk>, id: nat, c: Chunk)
    requires id < |cs|
    ensures Total(cs[id := c]) == Total(cs) - Buffered(cs[id]) + Buffered(c)
  {
    hide Buffered;
    if id > 0 {
      TotalUpdate(cs[1..], id - 1, c);
      assert cs[id := c][1..] == cs[1..][id - 1 := c];
    }
  }

  /** Bytes still buffered, or dropped from the buffer but not yet deducted. */
  function Outstanding(s: State): int {
    Total(s.chunks) + if s.flusher.Dropped? then s.flusher.flushed else 0
  }

  function Delta(s: State, step: Step): int {
    if step.Append? then Size(step.rec)
    else if step.Subtract? && s.flusher.Dropped? then 0 - s.flusher.flushed
    else 0
  }

  lemma AppendMoves(s: State, r: Record)
    requires LogInv(s) && Enabled(s, Append(r))
    ensures Outstanding(Apply(s, Append(r))) == Outstanding(s) + Size(r)
  {
    hide EncodeAll, Size, Encode, DiskOk, Total;
    var s' := Apply(s, Append(r));
    var p := AppendTarget(s, r);
    var c := s.chunks[p.chunk];
    assert ChunkOk(c);
    EncodeAllSnoc(c.log, r);
    assert (c.log + [r])[..Gone(c)] == c.log[..Gone(c)];
    TotalUpdate(s.chunks, p.chunk, s'.chunks[p.chunk]);
  }

  lemma FlushMoves(s: State, step: Step)
    requires LogInv(s) && Enabled(s, step) && !step.Append?
    ensures Outstanding(Apply(s, step)) == Outstanding(s) + Delta(s, step)
  {
    hide EncodeAll, Size, Encode, DiskOk, Total;
    var s' := Apply(s, step);
    if step.Spill? || step.Sync? || step.Drop? {
      assert ChunkOk(s.chunks[s.flusher.chunk]);
      TotalUpdate(s.chunks, s.flusher.chunk, s'.chunks[s.flusher.chunk]);
    }
  }

  lemma StepCounts(s: State, step: Step)
    requires LogInv(s) && Enabled(s, step) && s.wbufSize == Outstanding(s) % 0x1_0000_0000
    ensures var s' := Apply(s, step); s'.wbufSize == Outstanding(s') % 0x1_0000_0000
  {
    hide Size, Outstanding, LogInv;
    if step.Append? {
      AppendMoves(s, step.rec);
    } else {
      FlushMoves(s, step);
    }
    WrapSum(Outstanding(s), Delta(s, step), 0x1_0000_0000);
  }

  lemma {:induction false} NothingBuffered(cs: seq<Chunk>)
    requires forall i :: 0 <= i < |cs| ==> Loaded(cs[i])
    ensures Total(cs) == 0
  {
    if cs != [] {
      NothingBuffered(cs[1..]);
      assert Loaded(cs[0]);
      assert cs[0].log[..|cs[0].log|] == cs[0].log;
    }
  }

  /** wbufSize is, modulo 2^32, what is buffered or being flushed. */
  lemma {:induction false} CounterExact(tr: seq<State>, steps: seq<Step>, i: nat)
    requires Run(tr, steps) && i < |tr|
    ensures tr[i].wbufSize == Outstanding(tr[i]) % 0x1_0000_0000
  {
    hide LogInv, Apply, Enabled, Total;
    if i == 0 {
      NothingBuffered(tr[0].chunks);
    } else {
      CounterExact(tr, steps, i - 1);
      RunKeeps(tr, steps, i - 1);
      assert Enabled(tr[i - 1], steps[i - 1]);
      StepCounts(tr[i - 1], steps[i - 1]);
    }
  }
}
