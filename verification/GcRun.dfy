/**
  The collector's loops: choosing a destination, moving the records of one chunk,
  and walking over the range until it is done, cancelled, or fails to read. Between
  any two iterations clients may set and delete keys.
*/
module GcRun {
  import opened Bytes
  import opened Records
  import opened DataStore
  import opened Logs
  import opened Gc
  import opened GcLatest
  import opened GcLog

  // ----- the state of a collection, over values

  /** Record i of chunk src comes next; b is the state before the collection with the
      clients' writes so far added to it. */
  ghost predicate Inv(b: Before, chunks: seq<DataChunk>, htree: map<Key, Entry>, now: seq<seq<Record>>,
                      kept: seq<Record>, written: set<Key>, src: nat, dst: nat, i: nat) {
    && Sound(b) && b.end + 1 < |b.logs| && dst <= b.end
    && Account(b, kept, written, src, i)
    && Files(b, chunks, now, src, dst, Offset(b.logs[src], i))
    && Pointers(b, htree, now, src, dst, Offset(b.logs[src], i))
    && Order(b, now, dst, kept)
    && Settled(b, htree, now, src, dst, Offset(b.logs[src], i))
  }

  lemma InvShape(b: Before, chunks: seq<DataChunk>, htree: map<Key, Entry>, now: seq<seq<Record>>,
                 kept: seq<Record>, written: set<Key>, src: nat, dst: nat, i: nat)
    requires Inv(b, chunks, htree, now, kept, written, src, dst, i)
    ensures Sound(b) && b.end + 1 < |b.logs| == |chunks| == |now| && dst <= b.end && dst <= src <= b.end + 1
            && b.begin <= src
    ensures i <= |b.logs[src]| && Account(b, kept, written, src, i) && htree.Keys == b.htree.Keys
    ensures |EncodeAll(now[dst])| == chunks[dst].writingHead <= |chunks[dst].file|
    ensures src <= b.end ==> |chunks[src].file| == |EncodeAll(b.logs[src])| == chunks[src].size <= DATA_FILE_MAX
  {
    hide EncodeAll, Thinned, Survivors, Of, Order, Settled;
    FilesHead(b, chunks, now, src, dst, Offset(b.logs[src], i));
    FilesLength(b, chunks, now, src, dst, Offset(b.logs[src], i));
  }

  /** The record at hand, and whether the tree still leads to it. */
  lemma InvNext(b: Before, chunks: seq<DataChunk>, htree: map<Key, Entry>, now: seq<seq<Record>>,
                kept: seq<Record>, written: set<Key>, src: nat, dst: nat, i: nat)
    requires Inv(b, chunks, htree, now, kept, written, src, dst, i) && src <= b.end && src < |b.logs|
             && i < |b.logs[src]|
    ensures var rd, r := Offset(b.logs[src], i), b.logs[src][i];
            && src < |chunks| && ReadAt(chunks[src].file, rd) == Some(r)
            && rd + Size(r) == Offset(b.logs[src], i + 1) <= |chunks[src].file|
            && (Kept(b, src, i) <==>
                if r.key in htree then htree[r.key].pos == Position(src, rd) else b.begin > 0 && r.ver < 0)
  {
    hide EncodeAll, Encode, ReadAt, Size, Order, Account, RecAt, Settled;
    var log := b.logs[src];
    var rd := Offset(log, i);
    EncodeAllAt(log, i);
    if src == dst {
      HoldsTail(EncodeAll(log), chunks[src].file, rd, rd, log[i]);
    }
    HoldsRead(chunks[src].file, rd, log[i]);
    FilesLength(b, chunks, now, src, dst, rd);
    var k := log[i].key;
    if k in htree {
      assert PointerOk(b, htree[k], k, now, src, dst, rd);
    }
  }

  lemma InvMove(b: Before, chunks: seq<DataChunk>, htree: map<Key, Entry>, now: seq<seq<Record>>,
                kept: seq<Record>, written: set<Key>, src: nat, dst: nat, i: nat)
    requires Inv(b, chunks, htree, now, kept, written, src, dst, i) && src <= b.end && src < |b.logs|
             && i < |b.logs[src]|
    requires Kept(b, src, i) && |chunks| == |now| && dst < |chunks| && chunks[dst].writingHead <= |chunks[dst].file|
    requires Size(b.logs[src][i]) + chunks[dst].writingHead <= DATA_FILE_MAX
    ensures var r := b.logs[src][i]; var p := Position(dst, chunks[dst].writingHead);
            Inv(b, chunks[dst := AppendGC(chunks[dst], r)],
                if r.key in htree then htree[r.key := htree[r.key].(pos := p)] else htree,
                now[dst := now[dst] + [r]], kept + [r], written, src, dst, i + 1)
  {
    hide EncodeAll, Encode, Size, Files, Pointers, Order, AppendGC, ReadAt, Thinned, Survivors, Of, Settled;
    InvShape(b, chunks, htree, now, kept, written, src, dst, i);
    InvNext(b, chunks, htree, now, kept, written, src, dst, i);
    MoveRecord(b, chunks, htree, now, kept, src, dst, i);
    var r, p := b.logs[src][i], Position(dst, chunks[dst].writingHead);
    var htree' := if r.key in htree then htree[r.key := htree[r.key].(pos := p)] else htree;
    SettledMove(b, htree, htree', now, src, dst, i, Offset(b.logs[src], i), r);
    AccountStep(b, kept, written, src, i);
  }

  lemma InvPass(b: Before, chunks: seq<DataChunk>, htree: map<Key, Entry>, now: seq<seq<Record>>,
                kept: seq<Record>, written: set<Key>, src: nat, dst: nat, i: nat)
    requires Inv(b, chunks, htree, now, kept, written, src, dst, i) && src <= b.end && src < |b.logs|
             && i < |b.logs[src]|
    requires !Kept(b, src, i)
    ensures Inv(b, chunks, htree, now, kept, written, src, dst, i + 1)
  {
    hide EncodeAll, Encode, Size, Files, Pointers, Order, ReadAt, Thinned, Survivors, Of, Settled;
    InvShape(b, chunks, htree, now, kept, written, src, dst, i);
    InvNext(b, chunks, htree, now, kept, written, src, dst, i);
    PassRecord(b, chunks, htree, now, src, dst, i);
    SettledPass(b, htree, now, src, dst, i);
    AccountStep(b, kept, written, src, i);
  }

  lemma InvRotate(b: Before, chunks: seq<DataChunk>, htree: map<Key, Entry>, now: seq<seq<Record>>,
                  kept: seq<Record>, written: set<Key>, src: nat, dst: nat, i: nat)
    requires Inv(b, chunks, htree, now, kept, written, src, dst, i) && dst < src <= b.end && src < |now|
             && dst + 1 < |chunks|
    ensures Inv(b, RotateChunks(chunks, src, dst), htree, RotateNow(now, src, dst), kept, written, src, dst + 1, i)
    ensures RotateChunks(chunks, src, dst)[dst + 1].writingHead == 0
  {
    hide EncodeAll, Pointers, Order, ChunkIs, DstIs, InPlace, Account, Settled, RotateChunks;
    InvShape(b, chunks, htree, now, kept, written, src, dst, i);
    var rd := Offset(b.logs[src], i);
    OffsetInside(b.logs[src], i);
    RotateFiles(b, chunks, now, src, dst, rd);
    RotatePointers(b, htree, now, src, dst, rd);
    OrderRotate(b, now, src, dst, kept);
    SettledRotate(b, htree, now, src, dst, rd);
    EmptyLog();
    FilesHead(b, RotateChunks(chunks, src, dst), RotateNow(now, src, dst), src, dst + 1, rd);
  }

  /** A chunk is read to its end: it is removed unless it is the destination. */
  lemma InvLeave(b: Before, chunks: seq<DataChunk>, htree: map<Key, Entry>, now: seq<seq<Record>>,
                 kept: seq<Record>, written: set<Key>, src: nat, dst: nat)
    requires src < |b.logs| && Inv(b, chunks, htree, now, kept, written, src, dst, |b.logs[src]|) && src <= b.end
    requires src < |chunks| == |now|
    ensures Inv(b, Cleared(chunks, src, dst, CLEARED), htree, Cleared(now, src, dst, []), kept, written, src + 1,
            dst, 0)
  {
    hide EncodeAll, Files, Pointers, Order, Account, Cleared, Settled;
    InvShape(b, chunks, htree, now, kept, written, src, dst, |b.logs[src]|);
    Ends(b.logs[src]);
    Starts(b.logs[src + 1]);
    ChunkDone(b, chunks, htree, now, kept, src, dst);
    SettledLeave(b, htree, now, src, dst);
    AccountChunk(b, kept, written, src);
  }

  lemma Ends(log: seq<Record>)
    ensures Offset(log, |log|) == |EncodeAll(log)|
  {
    assert log[..|log|] == log;
  }

  lemma Starts(log: seq<Record>)
    ensures Offset(log, 0) == 0
  {
    assert log[..0] == [];
  }

  /** An empty chunk is passed over. */
  lemma InvSkip(b: Before, chunks: seq<DataChunk>, htree: map<Key, Entry>, now: seq<seq<Record>>,
                kept: seq<Record>, written: set<Key>, src: nat, dst: nat)
    requires Inv(b, chunks, htree, now, kept, written, src, dst, 0) && src <= b.end && src < |b.logs|
    requires |EncodeAll(b.logs[src])| == 0
    ensures Inv(b, chunks, htree, now, kept, written, src + 1, dst, 0)
  {
    hide EncodeAll, Files, Pointers, Order, Account, Settled;
    InvShape(b, chunks, htree, now, kept, written, src, dst, 0);
    Starts(b.logs[src]);
    Starts(b.logs[src + 1]);
    SkipChunk(b, chunks, htree, now, src, dst);
    SettledLeave(b, htree, now, src, dst);
    AccountChunk(b, kept, written, src);
  }

  lemma InvOpen(b: Before, chunks: seq<DataChunk>, begin: nat)
    requires Sound(b) && begin == b.begin && |chunks| == |b.logs| && b.end + 1 < |b.logs|
    requires forall c :: 0 <= c < |chunks| ==> ChunkIs(chunks[c], b.logs[c])
    ensures var dst := Nearest(chunks, begin, begin);
            Inv(b, chunks[dst := BeginWriting(chunks[dst], dst, begin)], b.htree,
                if dst == begin then b.logs[begin := []] else b.logs, [], {}, begin, dst, 0)
  {
    hide EncodeAll, Files, Pointers, Order, Account, Nearest, BeginWriting, Settled;
    Starts(b.logs[begin]);
    Opening(b, chunks, begin);
    SettledOpen(b, Nearest(chunks, begin, begin));
    AccountStart(b);
  }

  /** A client's write. */
  lemma InvWrite(b: Before, chunks: seq<DataChunk>, htree: map<Key, Entry>, now: seq<seq<Record>>,
                 kept: seq<Record>, written: set<Key>, src: nat, dst: nat, i: nat, w: ClientWrite)
    requires Inv(b, chunks, htree, now, kept, written, src, dst, i)
    requires b.end < w.chunk < |b.logs| == |chunks| == |now| && Storable(w.rec)
    ensures now[w.chunk] == b.logs[w.chunk] && chunks[w.chunk].size == |EncodeAll(b.logs[w.chunk])|
    ensures Inv(Add(b, w), chunks[w.chunk := Appended(chunks[w.chunk], w.rec)],
                htree[w.rec.key := Entry(Position(w.chunk, chunks[w.chunk].size), w.rec.ver, w.vhash)],
                now[w.chunk := now[w.chunk] + [w.rec]], kept, written + {w.rec.key}, src, dst, i)
  {
    hide EncodeAll, Encode, Size, Pointers, Order, Appended, DstIs, InPlace, Thinned, Survivors, Of, Add,
      Settled;
    var rd := Offset(b.logs[src], i);
    InvShape(b, chunks, htree, now, kept, written, src, dst, i);
    SameOffset(b, w, src, i);
    assert ChunkIs(chunks[w.chunk], now[w.chunk]);
    AddSound(b, w);
    AddFiles(b, w, chunks, now, src, dst, rd);
    AddPointers(b, w, htree, now, src, dst, rd);
    SettledWrite(b, w, htree, now, src, dst, rd);
    AddOrder(b, w, now, dst, kept);
    AccountWrite(b, kept, written, src, i, w);
  }

  lemma SameOffset(b: Before, w: ClientWrite, src: nat, i: nat)
    requires b.end < w.chunk < |b.logs| && src <= b.end + 1 && src < |b.logs| && i <= |b.logs[src]|
             && (src == b.end + 1 ==> i == 0)
    ensures i <= |Add(b, w).logs[src]| && Offset(Add(b, w).logs[src], i) == Offset(b.logs[src], i)
    ensures src == w.chunk ==> Offset(b.logs[src], i) == 0
  {
    assert Add(b, w).logs[src][..i] == b.logs[src][..i];
    Starts(b.logs[src]);
  }

  // ----- clients

  /** The writes that clients will make, in order, and how many of them come before each
      iteration. */
  datatype Env = Env(ws: seq<ClientWrite>, bursts: seq<nat>)

  function Least(a: nat, b: nat): nat {
    if a < b then a else b
  }

  /** Writes go to the chunk being appended to, or a later one. */
  ghost predicate Orderly(ws: seq<ClientWrite>, lo: nat, n: nat) {
    && (forall j :: 0 <= j < |ws| ==> lo <= ws[j].chunk < n && Storable(ws[j].rec))
    && forall i, j :: 0 <= i < j < |ws| ==> ws[i].chunk <= ws[j].chunk
  }

  function AddAll(b: Before, ws: seq<ClientWrite>): (b': Before)
    requires forall j :: 0 <= j < |ws| ==> ws[j].chunk < |b.logs|
    ensures b'.begin == b.begin && b'.end == b.end && |b'.logs| == |b.logs|
  {
    if ws == [] then b else Add(AddAll(b, ws[..|ws| - 1]), ws[|ws| - 1])
  }

  lemma AddNext(b: Before, ws: seq<ClientWrite>, n: nat)
    requires n < |ws| && forall j :: 0 <= j < |ws| ==> ws[j].chunk < |b.logs|
    ensures AddAll(b, ws[..n + 1]) == Add(AddAll(b, ws[..n]), ws[n])
  {
    assert ws[..n + 1][..n] == ws[..n];
  }

  /** The first `served` writes were made. */
  ghost predicate Trace(b0: Before, env: Env, b: Before, served: nat, written: set<Key>) {
    && Orderly(env.ws, b0.end + 1, |b0.logs|) && served <= |env.ws|
    && b == AddAll(b0, env.ws[..served]) && (served == 0 ==> written == {})
  }

  lemma TraceNext(b0: Before, env: Env, b: Before, served: nat, written: set<Key>)
    requires Trace(b0, env, b, served, written) && served < |env.ws|
    ensures var w := env.ws[served];
            && b.end < w.chunk < |b.logs| && Storable(w.rec)
            && Trace(b0, env, Add(b, w), served + 1, written + {w.rec.key})
  {
    hide Add;
    AddNext(b0, env.ws, served);
  }

  // ----- the collector

  class Collector {
    var chunks: seq<DataChunk>
    var htree: map<Key, Entry>
    var dst: nat
    var served: nat                   // how many client writes were made
    ghost var b: Before               // the state before, with those writes added
    ghost var now: seq<seq<Record>>   // the records each chunk holds
    ghost var kept: seq<Record>       // the survivors
    ghost var written: set<Key>       // the keys clients wrote
    ghost var first: nat              // the destination it started with

    /** Record i of chunk src comes next. */
    ghost predicate Reading(b0: Before, env: Env, src: nat, i: nat)
      reads this
    {
      && Inv(b, chunks, htree, now, kept, written, src, dst, i)
      && Trace(b0, env, b, served, written) && Packed(b, now, first, dst)
    }

    /** The entry of k leads to an intact copy of the last record of k. */
    ghost predicate Reads(k: Key)
      reads this
      requires k in htree
    {
      ReadsBack(b, chunks, htree[k], k)
    }

    lemma AllRead(b0: Before, env: Env, src: nat, i: nat)
      requires Reading(b0, env, src, i)
      ensures htree.Keys == b.htree.Keys && forall k :: k in htree ==> Reads(k)
    {
      hide EncodeAll, RecAt, ReadAt, Files, Order, Account;
      InvShape(b, chunks, htree, now, kept, written, src, dst, i);
      forall k | k in htree
        ensures Reads(k)
      {
        EveryEntryReads(b, chunks, htree, now, src, dst, Offset(b.logs[src], i), k);
      }
    }

    /** A client sets or deletes a key. */
    method Write(ghost b0: Before, env: Env, ghost src: nat, ghost i: nat)
      requires Reading(b0, env, src, i) && served < |env.ws|
      modifies this`chunks, this`htree, this`served, this`b, this`now, this`written
      ensures Reading(b0, env, src, i) && served == old(served) + 1
      ensures |b.logs| == |old(b.logs)| && b.logs[src][..i] == old(b.logs)[src][..i]
      ensures src <= b.end ==> b.logs[src] == old(b.logs)[src]
      ensures b == Add(old(b), env.ws[old(served)])
      ensures forall k :: k in htree ==> Reads(k)
    {
      hide Inv, Appended, Reads, Add, Trace, Sound, Account, EncodeAll, Packed;
      InvShape(b, chunks, htree, now, kept, written, src, dst, i);
      TraceNext(b0, env, b, served, written);
      TraceLength(b0, env, b, served, written);
      var w := env.ws[served];
      InvWrite(b, chunks, htree, now, kept, written, src, dst, i, w);
      AddElsewhere(b, w, src, i);
      RangeOk(b);
      PackedWrite(b, w, now, first, dst);
      var offset := chunks[w.chunk].size;
      chunks := chunks[w.chunk := Appended(chunks[w.chunk], w.rec)];
      htree := htree[w.rec.key := Entry(Position(w.chunk, offset), w.rec.ver, w.vhash)];
      now := now[w.chunk := now[w.chunk] + [w.rec]];
      b := Add(b, w);
      written := written + {w.rec.key};
      served := served + 1;
      AllRead(b0, env, src, i);
    }

    /** What clients do before an iteration. */
    method Serve(ghost b0: Before, env: Env, tick: nat, ghost src: nat, ghost i: nat)
      requires Reading(b0, env, src, i)
      modifies this`chunks, this`htree, this`served, this`b, this`now, this`written
      ensures Reading(b0, env, src, i)
      ensures |b.logs| == |old(b.logs)| && b.logs[src][..i] == old(b.logs)[src][..i]
      ensures src <= b.end ==> b.logs[src] == old(b.logs)[src]
      ensures b.begin == old(b.begin) && b.end == old(b.end)
      ensures served == Least(old(served) + if tick < |env.bursts| then env.bursts[tick] else 0, |env.ws|)
    {
      hide Inv, Reads, Add, Trace, Sound, Account, EncodeAll, Packed;
      InvShape(b, chunks, htree, now, kept, written, src, dst, i);
      TraceLength(b0, env, b, served, written);
      var n := if tick < |env.bursts| then env.bursts[tick] else 0;
      while n > 0 && served < |env.ws|
        invariant Reading(b0, env, src, i)
        invariant |b.logs| == |old(b.logs)| && src < |b.logs| && i <= |b.logs[src]|
                  && b.logs[src][..i] == old(b.logs)[src][..i]
        invariant src <= b.end ==> b.logs[src] == old(b.logs)[src]
        invariant b.begin == old(b.begin) && b.end == old(b.end) && served <= |env.ws| && n >= 0
        invariant Least(served + n, |env.ws|) ==
                  Least(old(served) + if tick < |env.bursts| then env.bursts[tick] else 0, |env.ws|)
      {
        Write(b0, env, src, i);
        InvShape(b, chunks, htree, now, kept, written, src, dst, i);
        n := n - 1;
      }
    }

    /** Moves on to the next destination chunk. */
    method Rotate(src: nat, ghost b0: Before, env: Env, ghost i: nat)
      requires Reading(b0, env, src, i) && dst < src <= b.end
      modifies this`chunks, this`dst, this`now
      ensures Inv(b, chunks, htree, now, kept, written, src, dst, i) && dst == old(dst) + 1
      ensures src < |old(now)| && now == RotateNow(old(now), src, old(dst))
      ensures dst < |chunks| && chunks[dst].writingHead == 0
    {
      hide Inv, BeginWriting, EndWriting, Trace, Sound, Account, EncodeAll, Packed;
      InvShape(b, chunks, htree, now, kept, written, src, dst, i);
      InvRotate(b, chunks, htree, now, kept, written, src, dst, i);
      now := RotateNow(now, src, dst);
      chunks := chunks[dst := EndWriting(chunks[dst])];
      dst := dst + 1;
      chunks := chunks[dst := BeginWriting(chunks[dst], dst, src)];
    }

    /** One iteration of the inner loop: the record at rd is kept if the tree leads to it,
        or if it is a tombstone the tree does not know and older chunks stay. */
    method CollectRecord(src: nat, rd: nat, begin: nat, ghost b0: Before, env: Env, ghost i: nat) returns (rd': nat)
      requires Reading(b0, env, src, i) && src <= b.end && src < |b.logs| && i < |b.logs[src]|
      requires rd == Offset(b.logs[src], i) && begin == b.begin
      modifies this`chunks, this`htree, this`dst, this`now, this`kept
      ensures Reading(b0, env, src, i + 1) && rd' == Offset(b.logs[src], i + 1)
      ensures forall k :: k in htree ==> Reads(k)
    {
      hide Inv, ReadAt, Size, Reads, AppendGC, Kept, EncodeAll, Trace, Sound, Account, Packed;
      InvShape(b, chunks, htree, now, kept, written, src, dst, i);
      InvNext(b, chunks, htree, now, kept, written, src, dst, i);
      var rec := ReadAt(chunks[src].file, rd).value;
      rd' := rd + Size(rec);
      var found := rec.key in htree;
      var isNewest := if found then htree[rec.key].pos == Position(src, rd) else begin > 0 && rec.ver < 0;
      if isNewest {
        if Size(rec) + chunks[dst].writingHead > DATA_FILE_MAX {
          FullBehind(b, chunks, htree, now, kept, written, src, dst, i);
          PackedRotate(b, now, first, src, dst, rec);
          Rotate(src, b0, env, i);
          InvShape(b, chunks, htree, now, kept, written, src, dst, i);
        } else {
          PackedMove(b, now, first, dst, rec);
        }
        var offset := chunks[dst].writingHead;
        InvMove(b, chunks, htree, now, kept, written, src, dst, i);
        chunks := chunks[dst := AppendGC(chunks[dst], rec)];
        if found {
          htree := htree[rec.key := htree[rec.key].(pos := Position(dst, offset))];
        }
        now := now[dst := now[dst] + [rec]];
        kept := kept + [rec];
      } else {
        InvPass(b, chunks, htree, now, kept, written, src, dst, i);
      }
      AllRead(b0, env, src, i + 1);
    }

    /** Reads chunk src to its end and removes it unless it is the destination; `failAt` is
        the record at which reading fails, if it does. */
    method CollectChunk(src: nat, begin: nat, failAt: int, ghost b0: Before, env: Env, tick: nat)
      returns (ok: bool, ghost i: nat, tick': nat)
      requires Reading(b0, env, src, 0) && src <= b.end && begin == b.begin
      modifies this
      ensures ok ==> Reading(b0, env, src + 1, 0) && i == 0 && dst <= src
      ensures !ok ==> Reading(b0, env, src, i) && i == failAt && (i == 0 ==> dst == old(dst))
      ensures ok <==> !(src < |old(b.logs)| && 0 <= failAt <= |old(b.logs)[src]|)
      ensures b.begin == old(b.begin) && b.end == old(b.end) && first == old(first)
    {
      hide Inv, EncodeAll, Reads, Trace, Sound, Account, Packed;
      InvShape(b, chunks, htree, now, kept, written, src, dst, 0);
      var rd: nat, j: nat := 0, 0;
      i, tick' := 0, tick;
      Starts(b.logs[src]);
      while true
        invariant Reading(b0, env, src, i) && src <= b.end && src < |b.logs| && i == j <= |b.logs[src]|
        invariant rd == Offset(b.logs[src], i) && b.logs[src] == old(b.logs)[src] && (i == 0 ==> dst == old(dst))
        invariant 0 <= failAt ==> j <= failAt
        invariant b.begin == old(b.begin) && b.end == old(b.end) && |b.logs| == |old(b.logs)| && first == old(first)
        decreases |b.logs[src]| - i
      {
        Serve(b0, env, tick', src, i);
        tick' := tick' + 1;
        InvShape(b, chunks, htree, now, kept, written, src, dst, i);
        OffsetInside(b.logs[src], i);
        if j == failAt {
          return false, i, tick';
        }
        if rd >= |chunks[src].file| {
          break;
        }
        rd := CollectRecord(src, rd, begin, b0, env, i);
        i, j := i + 1, j + 1;
      }
      InvLeave(b, chunks, htree, now, kept, written, src, dst);
      PackedLeave(b, now, first, src, dst);
      if src != dst {
        chunks := chunks[src := CLEARED];
        now := now[src := []];
      }
      ok, i := true, 0;
    }

    /** The collector is done, or has left at record i of chunk src. */
    ghost predicate Left(b0: Before, env: Env, src: nat, i: nat)
      reads this
    {
      && Trace(b0, env, b, served, written) && Sound(b) && b.end + 1 < |b.logs| == |chunks| == |now|
      && dst <= src <= b.end + 1 && dst <= b.end && Account(b, kept, written, src, i)
      && (forall c :: 0 <= c < |chunks| ==> ChunkIs(chunks[c], now[c]))
      && Flat(now) == Flat(b.logs[..b.begin]) + kept + Flat(b.logs[Rest(b, src, dst)..])
      && Layout(b, now, src, dst) && Pointers(b, htree, now, src, dst, Offset(b.logs[src], i))
      && Settled(b, htree, now, src, dst, Offset(b.logs[src], i)) && Packed(b, now, first, dst)
      && forall k :: k in htree ==> (Reads(k) <==> !CutOff(htree[k], src, dst, Offset(b.logs[src], i)))
    }

    /** Closing the destination, on every way out. */
    method Close(ghost b0: Before, env: Env, ghost src: nat, ghost i: nat)
      requires Reading(b0, env, src, i)
      modifies this`chunks
      ensures Left(b0, env, src, i)
    {
      hide EncodeAll, RecAt, ReadAt, Files, Order, Account, EndWriting, Pointers, ReadsBack, CutOff, Flat, Trace,
        ChunkIs, Settled, Layout, Packed;
      InvShape(b, chunks, htree, now, kept, written, src, dst, i);
      ghost var rd := Offset(b.logs[src], i);
      EndFiles(b, chunks, now, kept, src, dst, rd);
      FilesHead(b, chunks, now, src, dst, rd);
      forall k | k in htree
        ensures ReadsBack(b, chunks[dst := EndWriting(chunks[dst])], htree[k], k) <==> !CutOff(htree[k], src, dst, rd)
      {
        AfterEnd(b, chunks, htree, now, src, dst, rd, k);
      }
      chunks := chunks[dst := EndWriting(chunks[dst])];
    }

    /** The whole collection. `cancelAt` is the chunk before which a cancel request is
        noticed; `failChunk` and `failAt` say where reading fails. Beyond the range they
        have no effect. */
    method Collect(begin: nat, end: nat, cancelAt: nat, failChunk: nat, failAt: int, ghost b0: Before, env: Env)
      returns (src: nat, ghost i: nat)
      requires Reading(b0, env, begin, 0) && begin == b.begin && end == b.end
      modifies this
      ensures Left(b0, env, src, i) && b.begin == begin && b.end == end && begin <= src <= end + 1
      ensures src <= end ==> if src == cancelAt then i == 0 else src == failChunk && i == failAt
      ensures begin <= cancelAt <= end ==> src <= cancelAt
      ensures src > end ==> i == 0
      ensures src == dst && i == 0 ==> src == begin
      ensures src == begin && i == 0 ==> dst == old(dst)
      ensures first == old(first)
    {
      hide Inv, Trace, Left, Sound, Account, EncodeAll, Packed;
      InvShape(b, chunks, htree, now, kept, written, begin, dst, 0);
      src, i := begin, 0;
      var tick, ok := 0, true;
      while src <= end
        invariant Reading(b0, env, src, 0) && begin <= src <= end + 1 && b.begin == begin && b.end == end
        invariant src == begin ==> dst == old(dst)
        invariant begin < src ==> dst < src
        invariant first == old(first) && (begin <= cancelAt <= end ==> src <= cancelAt)
      {
        Serve(b0, env, tick, src, 0);
        tick := tick + 1;
        InvShape(b, chunks, htree, now, kept, written, src, dst, 0);
        if src == cancelAt {
          break;
        }
        if chunks[src].size <= 0 {
          InvSkip(b, chunks, htree, now, kept, written, src, dst);
        } else {
          ok, i, tick := CollectChunk(src, begin, if src == failChunk then failAt else -1, b0, env, tick);
          if !ok {
            Close(b0, env, src, i);
            return;
          }
        }
        src := src + 1;
      }
      i := 0;
      InvShape(b, chunks, htree, now, kept, written, src, dst, 0);
      Close(b0, env, src, 0);
    }

    /** The nearest non-empty chunk below the range if it has room for another
        record, else the chunk after it. */
    method ChooseDst(begin: nat)
      requires begin < |chunks|
      modifies this`dst
      ensures dst == Nearest(chunks, begin, begin)
    {
      dst := begin;
      var i := begin;
      while i > 0
        invariant 0 <= i <= begin && dst == begin
        invariant Nearest(chunks, begin, i) == Nearest(chunks, begin, begin)
      {
        i := i - 1;
        var sz := chunks[i].size;
        if sz > 0 {
          if sz < DATA_FILE_MAX - BODY_MAX {
            dst := i;
          } else if i < begin - 1 {
            dst := i + 1;
          }
          return;
        }
      }
    }

    /** A collection from start to end, whatever clients write meanwhile. However it
        leaves, the files are whole, and exactly the entries that lead to unread records
        of a chunk rewritten in place are lost. That takes a read error, or a cancel request
        noticed before a first chunk that is its own destination. */
    method Run(begin: nat, end: nat, cancelAt: nat, failChunk: nat, failAt: int, ghost b0: Before, env: Env)
      returns (src: nat, ghost i: nat)
      requires Sound(b0) && begin == b0.begin && end == b0.end && end + 1 < |b0.logs|
      requires |chunks| == |b0.logs| && htree == b0.htree && Orderly(env.ws, end + 1, |b0.logs|)
      requires forall c :: 0 <= c < |chunks| ==> ChunkIs(chunks[c], b0.logs[c])
      modifies this
      ensures Left(b0, env, src, i) && begin <= src <= end + 1
      ensures src <= end ==> if src == cancelAt then i == 0 else src == failChunk && i == failAt
      ensures begin <= cancelAt <= end ==> src <= cancelAt
      ensures src > end ==> i == 0
      ensures src == dst && i == 0 ==> src == begin
      ensures src == begin && i == 0 ==> dst == Nearest(old(chunks), begin, begin)
      ensures first == Nearest(old(chunks), begin, begin)
      ensures (forall k :: k in htree ==> Reads(k)) <==>
              !exists k :: k in htree && CutOff(htree[k], src, dst, Offset(b.logs[src], i))
    {
      hide Inv, Left, Sound, EncodeAll, Nearest, BeginWriting, ChunkIs, Reads, Packed;
      RangeOk(b0);
      ChooseDst(begin);
      InvOpen(b0, chunks, begin);
      chunks := chunks[dst := BeginWriting(chunks[dst], dst, begin)];
      now := if dst == begin then b0.logs[begin := []] else b0.logs;
      b, kept, written, served, first := b0, [], {}, 0, dst;
      PackedOpen(b0, dst);
      assert env.ws[..0] == [];
      src, i := Collect(begin, end, cancelAt, failChunk, failAt, b0, env);
      LeftReads(b0, env, src, i);
    }

    lemma LeftReads(b0: Before, env: Env, src: nat, i: nat)
      requires Left(b0, env, src, i)
      ensures src < |b.logs| && i <= |b.logs[src]|
      ensures forall k :: k in htree ==> (Reads(k) <==> !CutOff(htree[k], src, dst, Offset(b.logs[src], i)))
    {
      hide EncodeAll, Reads, CutOff, Trace, Sound, ChunkIs, Flat, Thinned, Survivors, Of, Settled, Layout, Packed;
    }
  }

  /** A destination that is full is behind the source. */
  lemma FullBehind(b: Before, chunks: seq<DataChunk>, htree: map<Key, Entry>, now: seq<seq<Record>>,
               kept: seq<Record>, written: set<Key>, src: nat, dst: nat, i: nat)
    requires Inv(b, chunks, htree, now, kept, written, src, dst, i) && src <= b.end && src < |b.logs|
             && i < |b.logs[src]|
    requires dst < |chunks| && Size(b.logs[src][i]) + chunks[dst].writingHead > DATA_FILE_MAX
    ensures dst < src < |now| && (dst + 1 < src ==> now[dst + 1] == [])
  {
    hide EncodeAll, Encode, Size, Pointers, Order, Account, ReadAt, Kept;
    InvShape(b, chunks, htree, now, kept, written, src, dst, i);
    InvNext(b, chunks, htree, now, kept, written, src, dst, i);
    FilesHead(b, chunks, now, src, dst, Offset(b.logs[src], i));
  }

  lemma RangeOk(b: Before)
    requires Sound(b)
    ensures b.begin <= b.end < |b.logs|
  {
  }

  lemma TraceLength(b0: Before, env: Env, b: Before, served: nat, written: set<Key>)
    requires Trace(b0, env, b, served, written)
    ensures served <= |env.ws| && |b.logs| == |b0.logs| && b.begin == b0.begin && b.end == b0.end
  {
  }

  lemma AddElsewhere(b: Before, w: ClientWrite, src: nat, i: nat)
    requires b.end < w.chunk < |b.logs| && src < |b.logs| && i <= |b.logs[src]|
    ensures Add(b, w).logs[src][..i] == b.logs[src][..i]
    ensures src <= b.end ==> Add(b, w).logs[src] == b.logs[src]
  {
  }
}
