/**
  Where the entries of a collection lead: behind every other record of their key. This is
  what lets another collection start where one has ended.
*/
module GcLatest {
  import opened Bytes
  import opened Records
  import opened DataStore
  import opened Gc

  /** In log order, record j of chunk c is not after p. */
  predicate UpTo(logs: seq<seq<Record>>, c: nat, j: nat, p: Position)
    requires c < |logs| && j < |logs[c]|
  {
    c < p.chunk || (c == p.chunk && Offset(logs[c], j) <= p.offset)
  }

  /** In the first n chunks no record of k comes after p. */
  ghost predicate LastUpTo(logs: seq<seq<Record>>, n: nat, k: Key, p: Position)
    requires n <= |logs|
  {
    forall c, j :: 0 <= c < n && 0 <= j < |logs[c]| && logs[c][j].key == k ==> UpTo(logs, c, j, p)
  }

  /** The entry of k is to stay behind all records of k: its record was read, or it lies
      below the range, behind all others of k there. */
  ghost predicate Ranked(b: Before, k: Key, src: nat, rd: nat)
    requires k in b.htree && b.begin <= |b.logs|
  {
    var p := b.htree[k].pos;
    !Unread(p, src, rd) && (p.chunk < b.begin ==> LastUpTo(b.logs, b.begin, k, p))
  }

  /** What was read: its entries are behind all records of their keys, and no file has
      outgrown its limit. */
  ghost predicate Settled(b: Before, htree: map<Key, Entry>, now: seq<seq<Record>>, src: nat, dst: nat, rd: nat)
    requires b.begin <= |b.logs| == |now| && dst < |now| && htree.Keys == b.htree.Keys
  {
    && (forall k :: k in htree && Ranked(b, k, src, rd) ==> LastUpTo(now, dst + 1, k, htree[k].pos))
    && forall c :: 0 <= c < |now| ==> |EncodeAll(now[c])| <= DATA_FILE_MAX || now[c] == b.logs[c]
  }

  lemma LastUpToSame(a: seq<seq<Record>>, z: seq<seq<Record>>, n: nat, m: nat, k: Key, p: Position)
    requires n <= |a| && m <= |z| && LastUpTo(a, n, k, p)
    requires forall c :: 0 <= c < m ==> z[c] == [] || (c < n && z[c] == a[c])
    ensures LastUpTo(z, m, k, p)
  {
    hide EncodeAll;
    forall c, j | 0 <= c < m && 0 <= j < |z[c]| && z[c][j].key == k
      ensures UpTo(z, c, j, p)
    {
      assert UpTo(a, c, j, p);
    }
  }

  lemma WithinLog(log: seq<Record>, r: Record, j: nat)
    requires j <= |log|
    ensures Offset(log + [r], j) <= |EncodeAll(log)|
    ensures j < |log| ==> Offset(log + [r], j) == Offset(log, j)
  {
    hide EncodeAll;
    assert (log + [r])[..j] == log[..j];
    OffsetInside(log, j);
  }

  /** A record of another key, or the record the entry leads to, is added. */
  lemma LastUpToSnoc(now: seq<seq<Record>>, dst: nat, r: Record, k: Key, p: Position, p': Position)
    requires dst < |now|
    requires if r.key == k then p' == Position(dst, |EncodeAll(now[dst])|)
             else p' == p && LastUpTo(now, dst + 1, k, p)
    ensures LastUpTo(now[dst := now[dst] + [r]], dst + 1, k, p')
  {
    hide EncodeAll;
    var now': seq<seq<Record>> := now[dst := now[dst] + [r]];
    forall c: nat, j: nat | 0 <= c < dst + 1 && 0 <= j < |now'[c]| && now'[c][j].key == k
      ensures UpTo(now', c, j, p')
    {
      if c == dst {
        WithinLog(now[dst], r, j);
      }
      if r.key != k {
        assert now[c][j].key == k;
        assert UpTo(now, c, j, p);
      }
    }
  }

  /** The record at hand is read. */
  lemma RankedNext(b: Before, k: Key, src: nat, i: nat)
    requires Sound(b) && k in b.htree && src < |b.logs| && i < |b.logs[src]|
    requires Ranked(b, k, src, Offset(b.logs[src], i) + Size(b.logs[src][i]))
    ensures Ranked(b, k, src, Offset(b.logs[src], i)) ||
            (b.logs[src][i].key == k && b.htree[k].pos == Position(src, Offset(b.logs[src], i)))
  {
    hide EncodeAll, Size, LastUpTo, RecAt;
    Untouched(b, k, src, i);
  }

  lemma SettledOpen(b: Before, dst: nat)
    requires Sound(b) && dst <= b.begin
    ensures Settled(b, b.htree, if dst == b.begin then b.logs[b.begin := []] else b.logs, b.begin, dst, 0)
  {
    hide EncodeAll, LastUpTo;
    var now := if dst == b.begin then b.logs[b.begin := []] else b.logs;
    EmptyLog();
    forall k | k in b.htree && Ranked(b, k, b.begin, 0)
      ensures LastUpTo(now, dst + 1, k, b.htree[k].pos)
    {
      LastUpToSame(b.logs, now, b.begin, dst + 1, k, b.htree[k].pos);
    }
  }

  /** A survivor is written and, if the tree knows its key, repointed. */
  lemma SettledMove(b: Before, htree: map<Key, Entry>, htree': map<Key, Entry>, now: seq<seq<Record>>, src: nat,
                    dst: nat, i: nat, rd: nat, r: Record)
    requires Sound(b) && |now| == |b.logs| && dst <= src < |b.logs| && i < |b.logs[src]|
    requires r == b.logs[src][i] && rd == Offset(b.logs[src], i)
    requires htree.Keys == htree'.Keys == b.htree.Keys && Settled(b, htree, now, src, dst, rd)
    requires |EncodeAll(now[dst])| + Size(r) <= DATA_FILE_MAX
    requires forall k :: k in htree ==>
               htree'[k].pos == if k == r.key then Position(dst, |EncodeAll(now[dst])|) else htree[k].pos
    ensures Settled(b, htree', now[dst := now[dst] + [r]], src, dst, rd + Size(r))
  {
    hide EncodeAll, Size, LastUpTo, Ranked, Encode;
    var now' := now[dst := now[dst] + [r]];
    forall k | k in htree' && Ranked(b, k, src, rd + Size(r))
      ensures LastUpTo(now', dst + 1, k, htree'[k].pos)
    {
      RankedNext(b, k, src, i);
      LastUpToSnoc(now, dst, r, k, htree[k].pos, htree'[k].pos);
    }
    EncodeAllSnoc(now[dst], r);
  }

  lemma SettledPass(b: Before, htree: map<Key, Entry>, now: seq<seq<Record>>, src: nat, dst: nat, i: nat)
    requires Sound(b) && |now| == |b.logs| && dst <= src < |b.logs| && i < |b.logs[src]|
    requires Pointers(b, htree, now, src, dst, Offset(b.logs[src], i))
    requires Settled(b, htree, now, src, dst, Offset(b.logs[src], i))
    requires var r := b.logs[src][i]; r.key in htree ==> htree[r.key].pos != Position(src, Offset(b.logs[src], i))
    ensures Settled(b, htree, now, src, dst, Offset(b.logs[src], i) + Size(b.logs[src][i]))
  {
    hide EncodeAll, Size, LastUpTo, Ranked, RecAt;
    var rd := Offset(b.logs[src], i);
    forall k | k in htree && Ranked(b, k, src, rd + Size(b.logs[src][i]))
      ensures LastUpTo(now, dst + 1, k, htree[k].pos)
    {
      RankedNext(b, k, src, i);
      assert PointerOk(b, htree[k], k, now, src, dst, rd);
    }
  }

  lemma SettledRotate(b: Before, htree: map<Key, Entry>, now: seq<seq<Record>>, src: nat, dst: nat, rd: nat)
    requires b.begin <= |b.logs| == |now| && dst < src < |now| && htree.Keys == b.htree.Keys
    requires dst + 1 < src ==> now[dst + 1] == []
    requires Settled(b, htree, now, src, dst, rd)
    ensures Settled(b, htree, RotateNow(now, src, dst), src, dst + 1, rd)
  {
    hide EncodeAll, LastUpTo, Ranked;
    var now' := RotateNow(now, src, dst);
    EmptyLog();
    forall k | k in htree && Ranked(b, k, src, rd)
      ensures LastUpTo(now', dst + 2, k, htree[k].pos)
    {
      LastUpToSame(now, now', dst + 1, dst + 2, k, htree[k].pos);
    }
  }

  lemma SettledLeave(b: Before, htree: map<Key, Entry>, now: seq<seq<Record>>, src: nat, dst: nat)
    requires Sound(b) && |b.logs| == |now| && dst <= src < |now| && htree.Keys == b.htree.Keys
    requires Settled(b, htree, now, src, dst, |EncodeAll(b.logs[src])|)
    ensures Settled(b, htree, Cleared(now, src, dst, []), src + 1, dst, 0)
  {
    hide EncodeAll, LastUpTo, RecAt;
    var now' := Cleared(now, src, dst, []);
    EmptyLog();
    forall k | k in htree && Ranked(b, k, src + 1, 0)
      ensures LastUpTo(now', dst + 1, k, htree[k].pos)
    {
      assert EntryOk(b, k);
      var p := b.htree[k].pos;
      InsideLog(b.logs[p.chunk], p.offset);
      assert Ranked(b, k, src, |EncodeAll(b.logs[src])|);
      LastUpToSame(now, now', dst + 1, dst + 1, k, htree[k].pos);
    }
  }

  lemma SettledWrite(b: Before, w: ClientWrite, htree: map<Key, Entry>, now: seq<seq<Record>>, src: nat, dst: nat,
                     rd: nat)
    requires Sound(b) && b.end < w.chunk < |b.logs| == |now| && dst < w.chunk && now[w.chunk] == b.logs[w.chunk]
    requires src < w.chunk || (src == w.chunk && rd == 0)
    requires htree.Keys == b.htree.Keys && Settled(b, htree, now, src, dst, rd)
    ensures var e := Entry(Position(w.chunk, |EncodeAll(b.logs[w.chunk])|), w.rec.ver, w.vhash);
            Settled(Add(b, w), htree[w.rec.key := e], now[w.chunk := now[w.chunk] + [w.rec]], src, dst, rd)
  {
    hide EncodeAll, LastUpTo;
    var b', now' := Add(b, w), now[w.chunk := now[w.chunk] + [w.rec]];
    var htree' := htree[w.rec.key := Entry(Position(w.chunk, |EncodeAll(b.logs[w.chunk])|), w.rec.ver, w.vhash)];
    forall k | k in htree' && Ranked(b', k, src, rd)
      ensures LastUpTo(now', dst + 1, k, htree'[k].pos)
    {
      assert k != w.rec.key;
      if b.htree[k].pos.chunk < b.begin {
        LastUpToSame(b'.logs, b.logs, b.begin, b.begin, k, b.htree[k].pos);
      }
      assert Ranked(b, k, src, rd);
      LastUpToSame(now, now', dst + 1, dst + 1, k, htree[k].pos);
    }
  }

  // ----- how full the destinations are

  /** The record that follows chunk c did not fit into it. */
  ghost predicate Spills(now: seq<seq<Record>>, c: nat)
    requires c + 1 < |now|
  {
    now[c + 1] != [] && |EncodeAll(now[c])| + Size(now[c + 1][0]) > DATA_FILE_MAX
  }

  /** The survivors fill the chunks from `first` on, one after the other; `first` keeps what
      it had unless it is the first source, and the chunks below are as before. */
  ghost predicate Packed(b: Before, now: seq<seq<Record>>, first: nat, dst: nat) {
    && first <= b.begin < |b.logs| == |now| && first <= dst < |now|
    && (forall c :: 0 <= c < first ==> now[c] == b.logs[c])
    && (first < b.begin ==> b.logs[first] <= now[first])
    && forall c :: first <= c < dst ==> Spills(now, c)
  }

  lemma PackedOpen(b: Before, dst: nat)
    requires Sound(b) && dst <= b.begin
    ensures Packed(b, if dst == b.begin then b.logs[b.begin := []] else b.logs, dst, dst)
  {
    hide EncodeAll, Size, RecAt, Storable;
  }

  /** A record is added where it fits. */
  lemma PackedMove(b: Before, now: seq<seq<Record>>, first: nat, dst: nat, r: Record)
    requires Packed(b, now, first, dst)
    ensures Packed(b, now[dst := now[dst] + [r]], first, dst)
  {
    hide EncodeAll, Size;
    var now' := now[dst := now[dst] + [r]];
    forall c | first <= c < dst
      ensures Spills(now', c)
    {
      assert Spills(now, c);
    }
  }

  /** A record that does not fit opens the next chunk. */
  lemma PackedRotate(b: Before, now: seq<seq<Record>>, first: nat, src: nat, dst: nat, r: Record)
    requires Packed(b, now, first, dst) && b.begin <= src && dst < src < |now|
    requires dst + 1 < src ==> now[dst + 1] == []
    requires |EncodeAll(now[dst])| + Size(r) > DATA_FILE_MAX
    ensures Packed(b, RotateNow(now, src, dst)[dst + 1 := RotateNow(now, src, dst)[dst + 1] + [r]], first, dst + 1)
  {
    hide EncodeAll, Size;
    var now' := RotateNow(now, src, dst)[dst + 1 := RotateNow(now, src, dst)[dst + 1] + [r]];
    assert now'[dst + 1] == [r];
    forall c | first <= c < dst + 1
      ensures Spills(now', c)
    {
      assert c < dst ==> Spills(now, c);
    }
  }

  lemma PackedLeave(b: Before, now: seq<seq<Record>>, first: nat, src: nat, dst: nat)
    requires Packed(b, now, first, dst) && dst <= src < |now|
    ensures Packed(b, Cleared(now, src, dst, []), first, dst)
  {
    hide EncodeAll, Size;
    var now' := Cleared(now, src, dst, []);
    forall c | first <= c < dst
      ensures Spills(now', c)
    {
      assert Spills(now, c);
    }
  }

  lemma PackedWrite(b: Before, w: ClientWrite, now: seq<seq<Record>>, first: nat, dst: nat)
    requires Packed(b, now, first, dst) && b.begin < w.chunk < |b.logs| && dst < w.chunk
    ensures Packed(Add(b, w), now[w.chunk := now[w.chunk] + [w.rec]], first, dst)
  {
    hide EncodeAll, Size;
    var now' := now[w.chunk := now[w.chunk] + [w.rec]];
    forall c | first <= c < dst
      ensures Spills(now', c)
    {
      assert Spills(now, c);
    }
  }
}
