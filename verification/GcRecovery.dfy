/**
  What a restart finds after a collection: replaying the new log gives the same
  live records as replaying the old one.
*/
module GcRecovery {
  import opened Bytes
  import opened Records
  import opened DataStore
  import opened Logs
  import opened Gc
  import opened GcLatest
  import opened GcLog
  import opened GcRun
  import opened GcRange

  // ----- replay

  /** Rebuilding from a log: a record with a positive version sets its key, any
      other removes it. */
  function Replay(log: seq<Record>): map<Key, Record> {
    if log == [] then map[]
    else
      var m, r := Replay(log[..|log| - 1]), log[|log| - 1];
      if r.ver > 0 then m[r.key := r] else m - {r.key}
  }

  /** The last record of a key. */
  function LastOf(log: seq<Record>, k: Key): Option<Record> {
    if log == [] then None
    else if log[|log| - 1].key == k then Some(log[|log| - 1])
    else LastOf(log[..|log| - 1], k)
  }

  /** Replay keeps exactly the keys whose last record is not a tombstone. */
  lemma {:induction false} ReplayIsLast(log: seq<Record>, k: Key)
    ensures k in Replay(log) <==> LastOf(log, k).Some? && LastOf(log, k).value.ver > 0
    ensures k in Replay(log) ==> Replay(log)[k] == LastOf(log, k).value
  {
    if log != [] {
      ReplayIsLast(log[..|log| - 1], k);
    }
  }

  lemma LastSnoc(log: seq<Record>, r: Record, k: Key)
    ensures LastOf(log + [r], k) == if r.key == k then Some(r) else LastOf(log, k)
  {
    assert (log + [r])[..|log|] == log;
  }

  lemma {:induction false} LastConcat(a: seq<Record>, b: seq<Record>, k: Key)
    ensures LastOf(a + b, k) == if LastOf(b, k).Some? then LastOf(b, k) else LastOf(a, k)
  {
    if b == [] {
      assert a + b == a;
    } else {
      var m := |b| - 1;
      LastConcat(a, b[..m], k);
      assert (a + b)[..|a| + m] == a + b[..m];
    }
  }

  // ----- the tree before the collection agrees with the log

  /** An entry leads to the last record of its key; a key without an entry has no
      record or ends in a tombstone. */
  ghost predicate TreeMatchesLog(b: Before) {
    && (forall c, j :: 0 <= c < |b.logs| && 0 <= j < |b.logs[c]| && b.logs[c][j].key in b.htree ==>
          UpTo(b.logs, c, j, b.htree[b.logs[c][j].key].pos))
    && (forall k :: k !in b.htree && LastOf(Flat(b.logs), k).Some? ==> LastOf(Flat(b.logs), k).value.ver < 0)
  }

  /** The log up to record n of chunk c. */
  ghost function Prefix(b: Before, c: nat, n: nat): seq<Record>
    requires c < |b.logs| && n <= |b.logs[c]|
  {
    Flat(b.logs[..c]) + b.logs[c][..n]
  }

  lemma PrefixStep(b: Before, c: nat, n: nat)
    requires c < |b.logs| && n < |b.logs[c]|
    ensures Prefix(b, c, n + 1) == Prefix(b, c, n) + [b.logs[c][n]]
  {
    hide Flat;
    assert b.logs[c][..n + 1] == b.logs[c][..n] + [b.logs[c][n]];
    ConcatAssoc(Flat(b.logs[..c]), b.logs[c][..n], [b.logs[c][n]]);
  }

  lemma PrefixChunk(b: Before, c: nat)
    requires c < |b.logs|
    ensures Prefix(b, c, |b.logs[c]|) == Flat(b.logs[..c + 1])
    ensures c + 1 < |b.logs| ==> Prefix(b, c + 1, 0) == Flat(b.logs[..c + 1])
  {
    hide Flat;
    FlatNext(b.logs, c);
    assert b.logs[c][..|b.logs[c]|] == b.logs[c];
    assert c + 1 < |b.logs| ==> b.logs[c + 1][..0] == [];
    assert Flat(b.logs[..c + 1]) + [] == Flat(b.logs[..c + 1]);
  }

  /** After its entry's position the last record of a key stays that record. */
  lemma {:induction false} EntryIsLast(b: Before, k: Key, j0: nat, c: nat, n: nat)
    requires Sound(b) && TreeMatchesLog(b) && k in b.htree && EntryOk(b, k)
    requires var p := b.htree[k].pos;
             && j0 < |b.logs[p.chunk]| && p.offset == Offset(b.logs[p.chunk], j0)
             && b.logs[p.chunk][j0] == Rec0(b, k)
    requires c < |b.logs| && n <= |b.logs[c]|
    requires var p := b.htree[k].pos; p.chunk < c || (p.chunk == c && j0 < n)
    ensures LastOf(Prefix(b, c, n), k) == Some(Rec0(b, k))
    decreases c, n
  {
    hide Flat, Prefix, EncodeAll, LastOf, RecAt;
    var p := b.htree[k].pos;
    if n > 0 {
      PrefixStep(b, c, n - 1);
      LastSnoc(Prefix(b, c, n - 1), b.logs[c][n - 1], k);
      if p.chunk == c && j0 == n - 1 {
      } else {
        EntryIsLast(b, k, j0, c, n - 1);
        if b.logs[c][n - 1].key == k {
          assert UpTo(b.logs, c, n - 1, p);
          OffsetsGrow(b.logs[c], j0, n - 1);
        }
      }
    } else {
      PrefixChunk(b, c - 1);
      EntryIsLast(b, k, j0, c - 1, |b.logs[c - 1]|);
    }
  }

  /** What an entry stands for is the last record of its key in the whole log. */
  lemma EntryLast(b: Before, k: Key)
    requires Sound(b) && TreeMatchesLog(b) && k in b.htree
    ensures EntryOk(b, k) && LastOf(Flat(b.logs), k) == Some(Rec0(b, k))
  {
    hide Flat, Prefix, EncodeAll, LastOf, RecAt, TreeMatchesLog;
    assert EntryOk(b, k);
    var p, last := b.htree[k].pos, |b.logs| - 1;
    var j0 := RecAtIndex(b.logs[p.chunk], p.offset);
    EntryIsLast(b, k, j0, last, |b.logs[last]|);
    PrefixChunk(b, last);
    assert b.logs[..last + 1] == b.logs;
  }

  // ----- survivors of one key

  /** Of a key with an entry the only survivor is the record of the entry. */
  lemma {:induction false} EntrySurvives(b: Before, k: Key, j0: nat, c: nat, n: nat)
    requires Sound(b) && k in b.htree && EntryOk(b, k)
    requires var p := b.htree[k].pos;
             && j0 < |b.logs[p.chunk]| && p.offset == Offset(b.logs[p.chunk], j0)
             && b.logs[p.chunk][j0] == Rec0(b, k)
    requires b.begin <= c < |b.logs| && n <= |b.logs[c]|
    ensures var p := b.htree[k].pos;
            LastOf(Survivors(b, c, n), k) ==
            if b.begin <= p.chunk && (p.chunk < c || (p.chunk == c && j0 < n)) then Some(Rec0(b, k)) else None
    decreases c, n
  {
    hide Survivors, EncodeAll, RecAt, LastOf;
    var p := b.htree[k].pos;
    if n > 0 {
      EntrySurvives(b, k, j0, c, n - 1);
      SurvivorsStep(b, c, n - 1);
      LastSnoc(Survivors(b, c, n - 1), b.logs[c][n - 1], k);
      if p.chunk == c && j0 < n - 1 {
        OffsetsGrow(b.logs[c], j0, n - 1);
      } else if p.chunk == c && n - 1 < j0 {
        OffsetsGrow(b.logs[c], n - 1, j0);
      }
    } else if c > b.begin {
      EntrySurvives(b, k, j0, c - 1, |b.logs[c - 1]|);
      SurvivorsChunk(b, c - 1);
    } else {
      SurvivorsNone(b);
      LastNil(k);
    }
  }

  lemma LastNil(k: Key)
    ensures LastOf([], k) == None
  {
  }

  /** Of a key without an entry: with older chunks left alone its last tombstone
      survives, with none left alone nothing does. */
  lemma {:induction false} TombstoneSurvives(b: Before, k: Key, c: nat, n: nat)
    requires Sound(b) && k !in b.htree && b.begin <= c < |b.logs| && n <= |b.logs[c]|
    ensures var all, kept := LastOf(Ranged(b, c, n), k), LastOf(Survivors(b, c, n), k);
            && (b.begin == 0 || all.None? ==> kept.None?)
            && (b.begin > 0 && all.Some? && all.value.ver < 0 ==> kept == all)
    decreases c, n
  {
    hide Survivors, EncodeAll, LastOf, Ranged;
    if n > 0 {
      TombstoneSurvives(b, k, c, n - 1);
      SurvivorsStep(b, c, n - 1);
      RangedStep(b, c, n - 1);
      LastSnoc(Survivors(b, c, n - 1), b.logs[c][n - 1], k);
      LastSnoc(Ranged(b, c, n - 1), b.logs[c][n - 1], k);
    } else if c > b.begin {
      TombstoneSurvives(b, k, c - 1, |b.logs[c - 1]|);
      SurvivorsChunk(b, c - 1);
      RangedChunk(b, c - 1);
    } else {
      SurvivorsNone(b);
      RangedNone(b);
      LastNil(k);
    }
  }

  // ----- the whole log

  lemma {:induction false} LastNone(log: seq<Record>, k: Key)
    ensures LastOf(log, k).None? <==> forall j :: 0 <= j < |log| ==> log[j].key != k
  {
    if log != [] {
      LastNone(log[..|log| - 1], k);
    }
  }

  lemma {:induction false} LastNoneFlat(ls: seq<seq<Record>>, k: Key)
    ensures LastOf(Flat(ls), k).None? <==> forall c :: 0 <= c < |ls| ==> LastOf(ls[c], k).None?
  {
    hide LastOf;
    if ls != [] {
      LastNoneFlat(ls[..|ls| - 1], k);
      LastConcat(Flat(ls[..|ls| - 1]), ls[|ls| - 1], k);
    } else {
      LastNil(k);
    }
  }

  /** The last record of a key, if it is live. */
  function LiveLast(log: seq<Record>, k: Key): Option<Record> {
    var l := LastOf(log, k);
    if l.Some? && l.value.ver > 0 then l else None
  }

  /** Two logs replay alike exactly if they agree on every key's live last record. */
  lemma ReplayAlike(a: seq<Record>, z: seq<Record>)
    ensures Replay(a) == Replay(z) <==> forall k :: LiveLast(a, k) == LiveLast(z, k)
  {
    hide Replay, LastOf;
    var x, y := Replay(a), Replay(z);
    forall k
      ensures LiveLast(a, k) == if k in x then Some(x[k]) else None
      ensures LiveLast(z, k) == if k in y then Some(y[k]) else None
    {
      ReplayIsLast(a, k);
      ReplayIsLast(z, k);
    }
    if forall k :: LiveLast(a, k) == LiveLast(z, k) {
      assert forall k :: k in x <==> k in y;
      assert x == y;
    }
  }

  lemma {:induction false} LastOfOf(s: seq<Record>, k: Key)
    ensures LastOf(s, k) == if Of(s, k) == [] then None else Some(Of(s, k)[|Of(s, k)| - 1])
  {
    if s != [] {
      LastOfOf(s[..|s| - 1], k);
    }
  }

  // ----- the log at the moment of leaving

  /** What lies before the range; what was read of it; what was not read of chunk src;
      what lies above it. */
  ghost function Pre(b: Before): seq<Record>
    requires b.begin <= |b.logs|
  {
    Flat(b.logs[..b.begin])
  }

  ghost function Unseen(b: Before, src: nat, i: nat): seq<Record>
    requires src < |b.logs| && i <= |b.logs[src]|
  {
    b.logs[src][i..]
  }

  ghost function Above(b: Before, src: nat): seq<Record>
    requires src < |b.logs|
  {
    Flat(b.logs[src + 1..])
  }

  lemma Parts(b: Before, src: nat, i: nat)
    requires b.begin <= src < |b.logs| && i <= |b.logs[src]|
    ensures Flat(b.logs) == Pre(b) + Ranged(b, src, i) + Unseen(b, src, i) + Above(b, src)
    ensures Flat(b.logs[src..]) == b.logs[src][..i] + Unseen(b, src, i) + Above(b, src)
  {
    hide Flat;
    var x, m, u := b.logs[..b.begin], b.logs[b.begin..src], b.logs[src];
    FlatCut(b.logs, src);
    FlatCut(b.logs[..src], b.begin);
    assert b.logs[..src][..b.begin] == x && b.logs[..src][b.begin..] == m;
    TailParts(b, src, i);
    Regroup(Flat(x), Flat(m), u[..i], u[i..], Flat(b.logs[src + 1..]));
  }

  lemma TailParts(b: Before, src: nat, i: nat)
    requires src < |b.logs| && i <= |b.logs[src]|
    ensures Flat(b.logs[src..]) == b.logs[src][..i] + Unseen(b, src, i) + Above(b, src)
  {
    hide Flat;
    var t, u := b.logs[src..], b.logs[src];
    FlatCut(t, 1);
    FlatNext(t, 0);
    FlatNil<Record>();
    assert t[..0] == [] && t[1..] == b.logs[src + 1..] && t[0] == u;
    assert u == u[..i] + u[i..] && [] + u == u;
  }

  lemma Regroup(x: seq<Record>, m: seq<Record>, r: seq<Record>, u: seq<Record>, z: seq<Record>)
    ensures (x + m) + (r + u + z) == x + (m + r) + u + z
  {
  }

  lemma LastFour(x: seq<Record>, y: seq<Record>, u: seq<Record>, z: seq<Record>, k: Key)
    ensures LastOf(x + y + u + z, k) ==
            if LastOf(z, k).Some? then LastOf(z, k)
            else if LastOf(u, k).Some? then LastOf(u, k)
            else LastOf(x + y, k)
  {
    LastConcat(x + y + u, z, k);
    LastConcat(x + y, u, k);
  }

  /** A key with an entry in the unread part or above has a record there. */
  lemma EntrySeen(b: Before, src: nat, i: nat, k: Key)
    requires Sound(b) && src < |b.logs| && i <= |b.logs[src]| && k in b.htree && EntryOk(b, k)
    requires LastOf(Unseen(b, src, i), k).None? && LastOf(Above(b, src), k).None?
    ensures var p := b.htree[k].pos; p.chunk < src || (p.chunk == src && p.offset < Offset(b.logs[src], i))
  {
    hide Flat, EncodeAll, RecAt, LastOf;
    var p := b.htree[k].pos;
    var j := RecAtIndex(b.logs[p.chunk], p.offset);
    LastNone(Unseen(b, src, i), k);
    LastNoneFlat(b.logs[src + 1..], k);
    var log, u := b.logs[src], Unseen(b, src, i);
    assert forall q :: i <= q < |log| ==> log[q] == u[q - i];
    if p.chunk > src {
      assert b.logs[src + 1..][p.chunk - src - 1] == b.logs[p.chunk];
      LastNone(b.logs[p.chunk], k);
    } else if p.chunk == src && j < i {
      OffsetsGrow(log, j, i);
    }
  }

  /** Of a key that is not in the unread part or above, what was kept says the same as
      what was read. */
  lemma FairKnown(b: Before, kept: seq<Record>, written: set<Key>, src: nat, i: nat, k: Key)
    requires Sound(b) && TreeMatchesLog(b) && Account(b, kept, written, src, i) && k in b.htree && k !in written
    requires LastOf(Unseen(b, src, i), k).None? && LastOf(Above(b, src), k).None?
    ensures LastOf(Pre(b) + kept, k) == LastOf(Pre(b) + Ranged(b, src, i), k)
  {
    hide Flat, EncodeAll, RecAt, LastOf, Survivors, Ranged, Thinned, Of, TreeMatchesLog;
    assert EntryOk(b, k);
    EntrySeen(b, src, i, k);
    var p := b.htree[k].pos;
    var j0 := RecAtIndex(b.logs[p.chunk], p.offset);
    if p.chunk == src && j0 >= i {
      OffsetMono(b.logs[src], i, j0);
    }
    EntryIsLast(b, k, j0, src, i);
    PrefixIs(b, src, i);
    LastOfOf(kept, k);
    LastOfOf(Survivors(b, src, i), k);
    EntrySurvives(b, k, j0, src, i);
    LastConcat(Pre(b), kept, k);
    if p.chunk < b.begin {
      EntryIsLast(b, k, j0, b.begin - 1, |b.logs[b.begin - 1]|);
      PrefixChunk(b, b.begin - 1);
    }
  }

  lemma OffsetMono(log: seq<Record>, i: nat, j: nat)
    requires i <= j <= |log|
    ensures Offset(log, i) <= Offset(log, j)
  {
    if i < j {
      OffsetsGrow(log, i, j);
    }
  }

  lemma PrefixIs(b: Before, src: nat, i: nat)
    requires b.begin <= src < |b.logs| && i <= |b.logs[src]|
    ensures Prefix(b, src, i) == Pre(b) + Ranged(b, src, i)
  {
    hide Flat;
    FlatCut(b.logs[..src], b.begin);
    assert b.logs[..src][..b.begin] == b.logs[..b.begin] && b.logs[..src][b.begin..] == b.logs[b.begin..src];
    ConcatAssoc(Flat(b.logs[..b.begin]), Flat(b.logs[b.begin..src]), b.logs[src][..i]);
  }

  lemma FairUnknown(b: Before, kept: seq<Record>, written: set<Key>, src: nat, i: nat, k: Key)
    requires Sound(b) && TreeMatchesLog(b) && Account(b, kept, written, src, i) && k !in b.htree
    requires LastOf(Unseen(b, src, i), k).None? && LastOf(Above(b, src), k).None?
    ensures LiveLast(Pre(b) + kept, k) == None == LiveLast(Pre(b) + Ranged(b, src, i), k)
    ensures LastOf(Pre(b) + kept, k).Some? ==> LastOf(Pre(b) + kept, k).value.ver < 0
  {
    hide Flat, EncodeAll, LastOf, Survivors, Ranged, Thinned, Of, Unseen, Above;
    Parts(b, src, i);
    LastFour(Pre(b), Ranged(b, src, i), Unseen(b, src, i), Above(b, src), k);
    LastOfOf(kept, k);
    LastOfOf(Survivors(b, src, i), k);
    TombstoneSurvives(b, k, src, i);
    LastConcat(Pre(b), kept, k);
    LastConcat(Pre(b), Ranged(b, src, i), k);
    if b.begin == 0 {
      assert b.logs[..b.begin] == [];
      FlatNil<Record>();
      LastNil(k);
    }
  }

  lemma Fair(b: Before, kept: seq<Record>, written: set<Key>, src: nat, i: nat, k: Key)
    requires Sound(b) && TreeMatchesLog(b) && Account(b, kept, written, src, i)
    requires LastOf(Unseen(b, src, i), k).None? && LastOf(Above(b, src), k).None?
    ensures LiveLast(Pre(b) + kept, k) == LiveLast(Pre(b) + Ranged(b, src, i), k)
  {
    hide Flat, EncodeAll, LastOf, Survivors, Ranged, Thinned, Of, TreeMatchesLog, RecAt, Unseen, Above;
    if k in b.htree {
      assert EntryOk(b, k);
      EntrySeen(b, src, i, k);
      Starts(b.logs[src]);
      assert k !in written;
      FairKnown(b, kept, written, src, i, k);
    } else {
      FairUnknown(b, kept, written, src, i, k);
    }
  }

  // ----- what a restart finds

  /** The log that leaving at record i of chunk src leaves. */
  ghost function LeftLog(b: Before, kept: seq<Record>, src: nat, dst: nat): seq<Record>
    requires b.begin <= |b.logs| && src < |b.logs|
  {
    Pre(b) + kept + Flat(b.logs[Rest(b, src, dst)..])
  }

  /** With the destination behind the source nothing is lost. */
  lemma RecoveryPreserved(b: Before, kept: seq<Record>, written: set<Key>, src: nat, dst: nat, i: nat)
    requires Sound(b) && TreeMatchesLog(b) && Account(b, kept, written, src, i) && dst < src
    ensures Replay(LeftLog(b, kept, src, dst)) == Replay(Flat(b.logs))
  {
    hide Replay, LastOf, TreeMatchesLog, Flat, Thinned, Survivors, Of, Unseen, Above, Sound, Ranged, Pre;
    ReplayAlike(LeftLog(b, kept, src, dst), Flat(b.logs));
    forall k
      ensures LiveLast(LeftLog(b, kept, src, dst), k) == LiveLast(Flat(b.logs), k)
    {
      KeptSame(b, kept, written, src, dst, i, k);
    }
  }

  lemma KeptSame(b: Before, kept: seq<Record>, written: set<Key>, src: nat, dst: nat, i: nat, k: Key)
    requires Sound(b) && TreeMatchesLog(b) && Account(b, kept, written, src, i) && dst < src
    ensures LiveLast(LeftLog(b, kept, src, dst), k) == LiveLast(Flat(b.logs), k)
  {
    hide LastOf, TreeMatchesLog, Flat, Thinned, Survivors, Of, Unseen, Above, Sound, Pre, Ranged;
    var u, z, seen := Unseen(b, src, i), Above(b, src), b.logs[src][..i];
    Parts(b, src, i);
    LastFour(Pre(b), Ranged(b, src, i), u, z, k);
    LastThree(Pre(b) + kept, seen, u, z, k);
    if LastOf(z, k).None? && LastOf(u, k).None? {
      RangedEnds(b, src, i, k);
      LastConcat(Pre(b), Ranged(b, src, i), k);
      Fair(b, kept, written, src, i, k);
    }
  }

  lemma LastThree(x: seq<Record>, y: seq<Record>, u: seq<Record>, z: seq<Record>, k: Key)
    ensures LastOf(x + (y + u + z), k) ==
            if LastOf(z, k).Some? then LastOf(z, k)
            else if LastOf(u, k).Some? then LastOf(u, k)
            else if LastOf(y, k).Some? then LastOf(y, k)
            else LastOf(x, k)
  {
    hide LastOf;
    LastConcat(x, y + u + z, k);
    LastConcat(y + u, z, k);
    LastConcat(y, u, k);
  }

  lemma RangedEnds(b: Before, src: nat, i: nat, k: Key)
    requires b.begin <= src < |b.logs| && i <= |b.logs[src]|
    ensures LastOf(b.logs[src][..i], k).Some? ==> LastOf(Ranged(b, src, i), k) == LastOf(b.logs[src][..i], k)
  {
    LastConcat(Flat(b.logs[b.begin..src]), b.logs[src][..i], k);
  }

  /** Losing the unread records of chunk src does no harm: of every key whose last record
      is among them, the rest of the log has the same live record, or none if it is a
      tombstone. */
  ghost predicate Harmless(b: Before, src: nat, i: nat)
    requires b.begin <= src < |b.logs| && i <= |b.logs[src]|
  {
    forall k :: LastOf(Unseen(b, src, i), k).Some? && LastOf(Above(b, src), k).None? ==>
      LiveLast(Pre(b) + Survivors(b, src, i), k) == LiveLast(Unseen(b, src, i), k)
  }

  /** With the source cut off behind its survivors, a restart finds the same live records
      if and only if that does no harm. */
  lemma RecoveryAfterCut(b: Before, kept: seq<Record>, written: set<Key>, src: nat, i: nat)
    requires Sound(b) && TreeMatchesLog(b) && Account(b, kept, written, src, i) && src <= b.end
    ensures Replay(LeftLog(b, kept, src, src)) == Replay(Flat(b.logs)) <==> Harmless(b, src, i)
  {
    hide Replay, LastOf, TreeMatchesLog, Flat, Thinned, Survivors, Of, Unseen, Above, Sound, Ranged, Pre, LiveLast;
    ReplayAlike(LeftLog(b, kept, src, src), Flat(b.logs));
    forall k
      ensures LiveLast(LeftLog(b, kept, src, src), k) == LiveLast(Flat(b.logs), k) <==>
              (LastOf(Unseen(b, src, i), k).Some? && LastOf(Above(b, src), k).None? ==>
                 LiveLast(Pre(b) + Survivors(b, src, i), k) == LiveLast(Unseen(b, src, i), k))
    {
      CutSame(b, kept, written, src, i, k);
    }
  }

  lemma CutSame(b: Before, kept: seq<Record>, written: set<Key>, src: nat, i: nat, k: Key)
    requires Sound(b) && TreeMatchesLog(b) && Account(b, kept, written, src, i) && src <= b.end
    ensures LiveLast(LeftLog(b, kept, src, src), k) == LiveLast(Flat(b.logs), k) <==>
            (LastOf(Unseen(b, src, i), k).Some? && LastOf(Above(b, src), k).None? ==>
               LiveLast(Pre(b) + Survivors(b, src, i), k) == LiveLast(Unseen(b, src, i), k))
  {
    hide LastOf, TreeMatchesLog, Flat, Thinned, Survivors, Of, Unseen, Sound, Pre, Ranged;
    var u, z := Unseen(b, src, i), Above(b, src);
    Parts(b, src, i);
    LastFour(Pre(b), Ranged(b, src, i), u, z, k);
    LastConcat(Pre(b) + kept, z, k);
    if LastOf(z, k).None? {
      if LastOf(u, k).None? {
        Fair(b, kept, written, src, i, k);
      } else {
        WrittenAbove(b, kept, written, src, i, k);
        LastOfOf(kept, k);
        LastOfOf(Survivors(b, src, i), k);
        LastConcat(Pre(b), kept, k);
        LastConcat(Pre(b), Survivors(b, src, i), k);
      }
    }
  }

  lemma WrittenAbove(b: Before, kept: seq<Record>, written: set<Key>, src: nat, i: nat, k: Key)
    requires Sound(b) && Account(b, kept, written, src, i) && src <= b.end && LastOf(Above(b, src), k).None?
    ensures k !in written
  {
    hide Flat, EncodeAll, RecAt, LastOf, Thinned, Survivors, Of, Ranged;
    if k in written {
      assert EntryOk(b, k);
      var p := b.htree[k].pos;
      var j := RecAtIndex(b.logs[p.chunk], p.offset);
      LastNoneFlat(b.logs[src + 1..], k);
      assert b.logs[src + 1..][p.chunk - src - 1] == b.logs[p.chunk];
      LastNone(b.logs[p.chunk], k);
    }
  }

  // ----- client writes

  /** Nothing was written to chunks after c. */
  ghost predicate EmptyAfter(b: Before, c: nat) {
    forall d :: c < d < |b.logs| ==> b.logs[d] == []
  }

  /** A write at the end of the log keeps tree and log in agreement. */
  lemma AddMatches(b: Before, w: ClientWrite)
    requires TreeMatchesLog(b) && w.chunk < |b.logs| && EmptyAfter(b, w.chunk)
    ensures TreeMatchesLog(Add(b, w)) && EmptyAfter(Add(b, w), w.chunk)
    ensures Flat(Add(b, w).logs) == Flat(b.logs) + [w.rec]
  {
    hide EncodeAll, LastOf, Flat;
    var b', log := Add(b, w), b.logs[w.chunk];
    FlatExtend(b.logs, w.chunk, w.rec);
    forall c, j | 0 <= c < |b'.logs| && 0 <= j < |b'.logs[c]| && b'.logs[c][j].key in b'.htree
      ensures UpTo(b'.logs, c, j, b'.htree[b'.logs[c][j].key].pos)
    {
      if c == w.chunk {
        WithinLog(log, w.rec, j);
      }
      assert (c == w.chunk && j == |log|) || (b'.logs[c][j] == b.logs[c][j] && c <= w.chunk);
    }
    forall k | k !in b'.htree && LastOf(Flat(b'.logs), k).Some?
      ensures LastOf(Flat(b'.logs), k).value.ver < 0
    {
      LastSnoc(Flat(b.logs), w.rec, k);
    }
  }

  function Recs(ws: seq<ClientWrite>): seq<Record> {
    if ws == [] then [] else Recs(ws[..|ws| - 1]) + [ws[|ws| - 1].rec]
  }

  /** The chunk that is appended to after some writes. */
  function HeadAfter(ws: seq<ClientWrite>, head: nat): nat {
    if ws == [] then head else ws[|ws| - 1].chunk
  }

  lemma {:induction false} AddAllMatches(b: Before, ws: seq<ClientWrite>, head: nat)
    requires TreeMatchesLog(b) && head < |b.logs| && EmptyAfter(b, head) && Orderly(ws, head, |b.logs|)
    ensures TreeMatchesLog(AddAll(b, ws))
    ensures EmptyAfter(AddAll(b, ws), HeadAfter(ws, head))
    ensures Flat(AddAll(b, ws).logs) == Flat(b.logs) + Recs(ws)
  {
    hide TreeMatchesLog, Flat, Add;
    if ws == [] {
      assert Flat(b.logs) + [] == Flat(b.logs);
    } else {
      var m := |ws| - 1;
      AddAllMatches(b, ws[..m], head);
      AddMatches(AddAll(b, ws[..m]), ws[m]);
      ConcatAssoc(Flat(b.logs), Recs(ws[..m]), [ws[m].rec]);
    }
  }

  // ----- a collection and then a restart

  /** A collection beside client writes, left in whatever way, and then a restart from the
      files. The live records are those of the old log with the writes added to it, unless
      the source was cut off; then they are if and only if that does no harm. */
  method CollectThenRecover(c: Collector, begin: nat, end: nat, cancelAt: nat, failChunk: nat, failAt: int,
                            ghost b0: Before, env: Env, ghost head: nat)
    returns (src: nat, ghost i: nat)
    requires Sound(b0) && TreeMatchesLog(b0) && begin == b0.begin && end == b0.end
    requires end < head < |b0.logs| && EmptyAfter(b0, head) && Orderly(env.ws, head, |b0.logs|)
    requires |c.chunks| == |b0.logs| && c.htree == b0.htree
    requires forall i :: 0 <= i < |c.chunks| ==> ChunkIs(c.chunks[i], b0.logs[i])
    modifies c
    ensures c.Left(b0, env, src, i)
    ensures |c.chunks| == |c.now| && forall i :: 0 <= i < |c.chunks| ==> c.chunks[i].file == EncodeAll(c.now[i])
    ensures c.served <= |env.ws| && Flat(c.b.logs) == Flat(b0.logs) + Recs(env.ws[..c.served])
    ensures begin <= src <= end + 1 && src < |c.b.logs| && i <= |c.b.logs[src]| && c.b.begin == begin
    ensures src <= end ==> if src == cancelAt then i == 0 else src == failChunk && i == failAt
    ensures src > end ==> i == 0
    ensures src == begin && i == 0 ==> c.dst == Nearest(old(c.chunks), begin, begin)
    ensures src == c.dst && i == 0 ==> src == begin
    ensures c.dst != src ==> Replay(Flat(c.now)) == Replay(Flat(b0.logs) + Recs(env.ws[..c.served]))
    ensures c.dst == src ==>
              (Replay(Flat(c.now)) == Replay(Flat(b0.logs) + Recs(env.ws[..c.served])) <==> Harmless(c.b, src, i))
  {
    hide EncodeAll, Replay, Flat, TreeMatchesLog, Nearest, ChunkIs, Collector.Reads, Sound, Harmless, LeftLog, Account;
    src, i := c.Run(begin, end, cancelAt, failChunk, failAt, b0, env);
    ServedMatch(b0, env, c.b, c.served, c.written, head);
    LeftShape(c.b, c.kept, c.written, src, i);
    LeftLogIs(c.b, c.kept, src, c.dst);
    IsFile(c.chunks, c.now);
    if c.dst < src {
      RecoveryPreserved(c.b, c.kept, c.written, src, c.dst, i);
    } else {
      RecoveryAfterCut(c.b, c.kept, c.written, src, i);
    }
  }

  lemma ServedMatch(b0: Before, env: Env, b: Before, served: nat, written: set<Key>, head: nat)
    requires Trace(b0, env, b, served, written) && TreeMatchesLog(b0)
    requires head < |b0.logs| && EmptyAfter(b0, head) && Orderly(env.ws, head, |b0.logs|)
    ensures TreeMatchesLog(b) && Flat(b.logs) == Flat(b0.logs) + Recs(env.ws[..served])
    ensures EmptyAfter(b, HeadAfter(env.ws[..served], head))
  {
    hide TreeMatchesLog, Flat, Add;
    AddAllMatches(b0, env.ws[..served], head);
  }

  lemma LeftShape(b: Before, kept: seq<Record>, written: set<Key>, src: nat, i: nat)
    requires Account(b, kept, written, src, i)
    ensures b.begin <= src < |b.logs| && i <= |b.logs[src]|
  {
  }

  lemma LeftLogIs(b: Before, kept: seq<Record>, src: nat, dst: nat)
    requires b.begin <= |b.logs| && src < |b.logs|
    ensures LeftLog(b, kept, src, dst) == Flat(b.logs[..b.begin]) + kept + Flat(b.logs[Rest(b, src, dst)..])
  {
  }

  // ----- two ways to lose

  lemma TwoChunks(x: seq<Record>, y: seq<Record>)
    ensures var ls := [x, y]; Flat(ls) == x + y && Flat(ls[..0]) == [] && Flat(ls[1..]) == y
  {
    var ls := [x, y];
    FlatNil<Record>();
    assert ls[..0] == [] && ls[..2] == ls && ls[1..] == [] + [y] && [] + x == x && [] + y == y;
    FlatNext(ls, 0);
    FlatNext(ls, 1);
    FlatSnoc([], y);
  }

  lemma ThreeChunks(x: seq<Record>, y: seq<Record>, z: seq<Record>)
    ensures var ls := [x, y, z]; Flat(ls) == x + y + z && Flat(ls[..1]) == x && Flat(ls[2..]) == z
  {
    var ls := [x, y, z];
    FlatNil<Record>();
    assert ls[..0] == [] && ls[2..] == [] + [z] && [] + z == z;
    FlatNext(ls, 0);
    FlatNext(ls, 1);
    FlatNext(ls, 2);
    FlatSnoc([], z);
    assert ls[..3] == ls && [] + x == x;
  }

  lemma RecAtOne(r: Record)
    ensures RecAt([r], 0) == Some(r)
    ensures |EncodeAll([r])| == Size(r)
  {
    EncodeAllSnoc([], r);
    assert [] + [r] == [r] && [r][..0] == [];
  }

  lemma LastOne(r: Record, k: Key)
    ensures LastOf([r], k) == if r.key == k then Some(r) else None
  {
    LastNil(k);
    assert [r][..0] == [];
  }

  /** A bucket with the live records r and x of two keys, in two chunks; the first is to
      be collected. */
  ghost function TwoLive(r: Record, x: Record): Before {
    Before([[r], [x]], map[r.key := Entry(Position(0, 0), r.ver, 0), x.key := Entry(Position(1, 0), x.ver, 0)], 0, 0)
  }

  lemma TwoLiveSound(r: Record, x: Record)
    requires Storable(r) && Storable(x) && Size(r) <= DATA_FILE_MAX && r.key != x.key
    ensures Sound(TwoLive(r, x)) && Collectable(TwoLive(r, x))
  {
    hide EncodeAll, RecAt, Storable, Size;
    RecAtOne(r);
    RecAtOne(x);
    var b := TwoLive(r, x);
    assert b.logs[1] == [x];
    assert EntryOk(b, r.key) && EntryOk(b, x.key);
  }

  lemma TwoLiveMatches(r: Record, x: Record)
    requires r.key != x.key
    ensures TreeMatchesLog(TwoLive(r, x))
  {
    hide EncodeAll, LastOf, Flat;
    var b := TwoLive(r, x);
    Starts([r]);
    Starts([x]);
    TwoChunks([r], [x]);
    forall k | k !in b.htree
      ensures LastOf(Flat(b.logs), k).None?
    {
      LastConcat([r], [x], k);
      LastOne(r, k);
      LastOne(x, k);
    }
  }

  /** A cancel request that is noticed before the first chunk, while that chunk is
      its own destination, destroys it: here r is gone although its key was live. */
  lemma CancelBeforeFirstChunk(r: Record, x: Record)
    requires Storable(r) && Storable(x) && Size(r) <= DATA_FILE_MAX && r.ver > 0 && r.key != x.key
    ensures var b := TwoLive(r, x);
            && Sound(b) && TreeMatchesLog(b) && Collectable(b) && EmptyAfter(b, 1)
            && LiveLast(Flat(b.logs), r.key) == Some(r) && LeftLog(b, [], 0, 0) == [x]
            && !Harmless(b, 0, 0)
  {
    hide EncodeAll, LastOf, Flat, Sound, TreeMatchesLog, Collectable, Storable, Size;
    var b, k := TwoLive(r, x), r.key;
    TwoLiveSound(r, x);
    TwoLiveMatches(r, x);
    TwoChunks([r], [x]);
    LastConcat([r], [x], k);
    LastOne(r, k);
    LastOne(x, k);
    LastNil(k);
    SurvivorsNone(b);
    assert Unseen(b, 0, 0) == [r] && Pre(b) + [] == [] && [] + [x] == [x];
  }

  /** A bucket whose chunk 0 holds records of one key, live at last, and whose chunk 1 holds
      the key's tombstone, which the tree has forgotten; chunk 1 is to be collected. */
  ghost function Forgotten(below: seq<Record>, t: Record, x: Record): Before {
    Before([below, [t], [x]], map[x.key := Entry(Position(2, 0), x.ver, 0)], 1, 1)
  }

  lemma ForgottenSound(below: seq<Record>, t: Record, x: Record)
    requires Storable(t) && Storable(x) && Size(t) <= DATA_FILE_MAX
    requires forall j :: 0 <= j < |below| ==> Storable(below[j])
    ensures Sound(Forgotten(below, t, x)) && Collectable(Forgotten(below, t, x))
  {
    hide EncodeAll, RecAt, Storable, Size;
    RecAtOne(t);
    RecAtOne(x);
    var b := Forgotten(below, t, x);
    assert b.logs[2] == [x];
    assert EntryOk(b, x.key);
  }

  lemma ForgottenMatches(below: seq<Record>, t: Record, x: Record)
    requires t.ver < 0 && t.key != x.key && forall j :: 0 <= j < |below| ==> below[j].key == t.key
    ensures TreeMatchesLog(Forgotten(below, t, x))
  {
    hide EncodeAll, LastOf, Flat;
    var b := Forgotten(below, t, x);
    Starts([x]);
    ThreeChunks(below, [t], [x]);
    forall k | k !in b.htree && LastOf(Flat(b.logs), k).Some?
      ensures LastOf(Flat(b.logs), k).value.ver < 0
    {
      LastConcat(below + [t], [x], k);
      LastOne(x, k);
      LastSnoc(below, t, k);
      LastNone(below, k);
    }
  }

  /** Or it brings a key back: its tombstone is the only record of the range, the tree has
      forgotten it, and chunk 0, where the key is still live, is too full to be the
      destination. Every entry of the tree reads back all the same. */
  lemma CancelRevives(below: seq<Record>, t: Record, x: Record, c0: DataChunk, c1: DataChunk, c2: DataChunk)
    requires below != [] && below[|below| - 1].ver > 0 && t.ver < 0 && t.key != x.key
    requires Storable(t) && Storable(x) && Size(t) <= DATA_FILE_MAX
    requires forall j :: 0 <= j < |below| ==> below[j].key == t.key && Storable(below[j])
    requires ChunkIs(c0, below) && c0.size > 0 && c0.size >= DATA_FILE_MAX - BODY_MAX
    ensures var b := Forgotten(below, t, x);
            && Sound(b) && TreeMatchesLog(b) && Collectable(b) && EmptyAfter(b, 2)
            && Nearest([c0, c1, c2], 1, 1) == 1
            && (forall k :: k in b.htree ==> !CutOff(b.htree[k], 1, 1, 0))
            && LiveLast(Flat(b.logs), t.key) == None && LeftLog(b, [], 1, 1) == below + [x]
            && LiveLast(below + [x], t.key) == Some(below[|below| - 1])
            && !Harmless(b, 1, 0)
  {
    hide EncodeAll, Flat, Sound, TreeMatchesLog, Collectable, Storable, Size;
    var b, k := Forgotten(below, t, x), t.key;
    ForgottenSound(below, t, x);
    ForgottenMatches(below, t, x);
    ThreeChunks(below, [t], [x]);
    LastConcat(below + [t], [x], k);
    LastConcat(below, [x], k);
    LastOne(x, k);
    LastOne(t, k);
    LastSnoc(below, t, k);
    SurvivorsNone(b);
    assert Unseen(b, 1, 0) == [t] && below + [] == below;
  }
}
