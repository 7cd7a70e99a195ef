/**
  One collection after another. A collection that leaves between two chunks, with its
  destination behind its source, leaves tree and log in agreement, so the next one may start.
*/
module GcAgain {
  import opened Bytes
  import opened Records
  import opened DataStore
  import opened Logs
  import opened Gc
  import opened GcRange
  import opened GcLatest
  import opened GcLog
  import opened GcRun
  import opened GcRecovery

  // ----- the tree leads to the last records

  lemma EntryAgain(b: Before, htree: map<Key, Entry>, now: seq<seq<Record>>, src: nat, dst: nat, k: Key,
                   lo: nat, hi: nat)
    requires Sound(b) && |now| == |b.logs| && dst < src <= |now| && Layout(b, now, src, dst)
    requires Pointers(b, htree, now, src, dst, 0) && k in htree
    ensures EntryOk(Before(now, htree, lo, hi), k)
  {
    hide EncodeAll, RecAt;
    assert PointerOk(b, htree[k], k, now, src, dst, 0);
    assert EntryOk(b, k);
  }

  lemma PlaceAgain(b: Before, htree: map<Key, Entry>, now: seq<seq<Record>>, src: nat, dst: nat, c: nat, j: nat)
    requires Sound(b) && TreeMatchesLog(b) && |now| == |b.logs| && dst < src <= |now| && Layout(b, now, src, dst)
    requires Pointers(b, htree, now, src, dst, 0) && Settled(b, htree, now, src, dst, 0)
    requires c < |now| && j < |now[c]| && now[c][j].key in htree
    ensures UpTo(now, c, j, htree[now[c][j].key].pos)
  {
    hide EncodeAll, RecAt, LastOf, Flat;
    var k := now[c][j].key;
    var p, p0 := htree[k].pos, b.htree[k].pos;
    assert PointerOk(b, htree[k], k, now, src, dst, 0);
    if c >= src {
      assert now[c] == b.logs[c];
      assert UpTo(b.logs, c, j, p0);
    } else if p0.chunk < src {
      assert LastUpTo(b.logs, b.begin, k, p0);
      assert Ranked(b, k, src, 0);
    }
  }

  /** A key the tree does not know still ends in a tombstone. */
  lemma UnknownAgain(b: Before, kept: seq<Record>, written: set<Key>, src: nat, dst: nat, k: Key)
    requires Sound(b) && TreeMatchesLog(b) && Account(b, kept, written, src, 0) && dst < src && k !in b.htree
    requires LastOf(LeftLog(b, kept, src, dst), k).Some?
    ensures LastOf(LeftLog(b, kept, src, dst), k).value.ver < 0
  {
    hide LastOf, Flat, Thinned, Survivors, Of, Unseen, Above, Sound, Pre, Ranged, EncodeAll;
    var u, z, seen := Unseen(b, src, 0), Above(b, src), b.logs[src][..0];
    Parts(b, src, 0);
    LastFour(Pre(b), Ranged(b, src, 0), u, z, k);
    LastThree(Pre(b) + kept, seen, u, z, k);
    LastNil(k);
    if LastOf(z, k).None? && LastOf(u, k).None? {
      FairUnknown(b, kept, written, src, 0, k);
    }
  }

  lemma MatchesAgain(b: Before, htree: map<Key, Entry>, now: seq<seq<Record>>, kept: seq<Record>, written: set<Key>,
                     src: nat, dst: nat, lo: nat, hi: nat)
    requires Sound(b) && TreeMatchesLog(b) && |now| == |b.logs| && dst < src < |now| && Layout(b, now, src, dst)
    requires Pointers(b, htree, now, src, dst, 0) && Settled(b, htree, now, src, dst, 0)
    requires Account(b, kept, written, src, 0) && Flat(now) == LeftLog(b, kept, src, dst)
    ensures TreeMatchesLog(Before(now, htree, lo, hi))
  {
    hide EncodeAll, LastOf, Flat, Sound, Account, Layout, Settled, UpTo, LeftLog;
    var n := Before(now, htree, lo, hi);
    forall c, j | 0 <= c < |n.logs| && 0 <= j < |n.logs[c]| && n.logs[c][j].key in n.htree
      ensures UpTo(n.logs, c, j, n.htree[n.logs[c][j].key].pos)
    {
      PlaceAgain(b, htree, now, src, dst, c, j);
    }
    forall k | k !in n.htree && LastOf(Flat(n.logs), k).Some?
      ensures LastOf(Flat(n.logs), k).value.ver < 0
    {
      UnknownAgain(b, kept, written, src, dst, k);
    }
  }

  // ----- the records and the files

  lemma {:induction false} ThinnedIn(a: seq<Record>, s: seq<Record>, r: Record)
    requires Thinned(a, s) && r in a
    ensures r in s
    decreases |s|
  {
    var m := |s| - 1;
    if Thinned(a, s[..m]) {
      ThinnedIn(a, s[..m], r);
    } else if r != s[m] {
      assert a == a[..|a| - 1] + [a[|a| - 1]];
      ThinnedIn(a[..|a| - 1], s[..m], r);
    }
  }

  lemma {:induction false} FromFlat<T>(ls: seq<seq<T>>, x: T) returns (c: nat)
    requires x in Flat(ls)
    ensures c < |ls| && x in ls[c]
  {
    var m := |ls| - 1;
    if x in ls[m] {
      c := m;
    } else {
      c := FromFlat(ls[..m], x);
    }
  }

  /** A collection makes up no records. */
  lemma NoneNew(b: Before, kept: seq<Record>, written: set<Key>, src: nat, dst: nat, r: Record)
    requires Account(b, kept, written, src, 0) && dst < src && r in LeftLog(b, kept, src, dst)
    ensures r in Flat(b.logs)
  {
    hide Flat, Thinned, Survivors, Of, Ranged, Unseen, Above, Pre;
    Parts(b, src, 0);
    if r in kept {
      ThinnedIn(kept, Ranged(b, src, 0), r);
    }
  }

  lemma StorableAgain(b: Before, now: seq<seq<Record>>, kept: seq<Record>, written: set<Key>, src: nat, dst: nat,
                      c: nat, j: nat)
    requires Sound(b) && Account(b, kept, written, src, 0) && dst < src && Flat(now) == LeftLog(b, kept, src, dst)
    requires c < |now| && j < |now[c]|
    ensures Storable(now[c][j])
  {
    hide EncodeAll, Flat, Account, LeftLog, Storable, EntryOk;
    var r := now[c][j];
    InFlat(now, c, r);
    LeftShape(b, kept, written, src, 0);
    NoneNew(b, kept, written, src, dst, r);
    var d := FromFlat(b.logs, r);
    var e :| 0 <= e < |b.logs[d]| && b.logs[d][e] == r;
  }

  lemma SoundAgain(b: Before, htree: map<Key, Entry>, now: seq<seq<Record>>, kept: seq<Record>, written: set<Key>,
                   src: nat, dst: nat, lo: nat, hi: nat)
    requires Sound(b) && |now| == |b.logs| && dst < src < |now| && Layout(b, now, src, dst)
    requires Pointers(b, htree, now, src, dst, 0)
    requires Account(b, kept, written, src, 0) && Flat(now) == LeftLog(b, kept, src, dst)
    requires lo <= hi < |now| && forall c :: lo <= c <= hi ==> |EncodeAll(now[c])| <= DATA_FILE_MAX
    ensures Sound(Before(now, htree, lo, hi))
  {
    hide EncodeAll, Flat, Account, LeftLog, Storable, EntryOk, Layout;
    var n := Before(now, htree, lo, hi);
    forall c, j | 0 <= c < |n.logs| && 0 <= j < |n.logs[c]|
      ensures Storable(n.logs[c][j])
    {
      StorableAgain(b, now, kept, written, src, dst, c, j);
    }
    forall k | k in n.htree
      ensures EntryOk(n, k)
    {
      EntryAgain(b, htree, now, src, dst, k, lo, hi);
    }
  }

  // ----- room in the files

  /** The bytes that writes add to chunk x. */
  function Load(ws: seq<ClientWrite>, x: nat): nat {
    if ws == [] then 0
    else Load(ws[..|ws| - 1], x) + if ws[|ws| - 1].chunk == x then Size(ws[|ws| - 1].rec) else 0
  }

  lemma {:induction false} LoadConcat(a: seq<ClientWrite>, z: seq<ClientWrite>, x: nat)
    ensures Load(a + z, x) == Load(a, x) + Load(z, x)
  {
    hide Size;
    if z == [] {
      assert a + z == a;
    } else {
      var m := |z| - 1;
      LoadConcat(a, z[..m], x);
      assert (a + z)[..|a| + m] == a + z[..m];
    }
  }

  lemma {:induction false} LoadElsewhere(ws: seq<ClientWrite>, x: nat)
    requires forall j :: 0 <= j < |ws| ==> ws[j].chunk > x
    ensures Load(ws, x) == 0
  {
    if ws != [] {
      LoadElsewhere(ws[..|ws| - 1], x);
    }
  }

  lemma {:induction false} AddLoad(b: Before, ws: seq<ClientWrite>, x: nat)
    requires x < |b.logs| && forall j :: 0 <= j < |ws| ==> ws[j].chunk < |b.logs|
    ensures |EncodeAll(AddAll(b, ws).logs[x])| == |EncodeAll(b.logs[x])| + Load(ws, x)
  {
    hide EncodeAll, Encode, Size;
    if ws != [] {
      var m := |ws| - 1;
      AddLoad(b, ws[..m], x);
      EncodeAllSnoc(AddAll(b, ws[..m]).logs[ws[m].chunk], ws[m].rec);
    }
  }

  /** Every file has room for the writes to it. */
  ghost predicate Room(logs: seq<seq<Record>>, ws: seq<ClientWrite>) {
    forall x :: 0 <= x < |logs| ==> |EncodeAll(logs[x])| + Load(ws, x) <= DATA_FILE_MAX
  }

  /** A chunk below the head is collected, one from the head on has grown by the writes. */
  lemma RoomLeft(b0: Before, ws: seq<ClientWrite>, n: nat, later: seq<ClientWrite>, now: seq<seq<Record>>, head: nat)
    requires Room(b0.logs, ws + later) && n <= |ws| && |now| == |b0.logs|
    requires forall j :: 0 <= j < |ws| ==> ws[j].chunk < |b0.logs|
    requires forall j :: 0 <= j < |later| ==> head <= later[j].chunk
    requires forall x :: 0 <= x < |now| ==>
               now[x] == AddAll(b0, ws[..n]).logs[x] || (x < head && |EncodeAll(now[x])| <= DATA_FILE_MAX)
    ensures Room(now, later)
  {
    hide EncodeAll, Load, AddAll;
    forall x | 0 <= x < |now|
      ensures |EncodeAll(now[x])| + Load(later, x) <= DATA_FILE_MAX
    {
      if now[x] == AddAll(b0, ws[..n]).logs[x] {
        AddLoad(b0, ws[..n], x);
        LoadConcat(ws, later, x);
        LoadConcat(ws[..n], ws[n..], x);
        assert ws[..n] + ws[n..] == ws;
      } else {
        LoadElsewhere(later, x);
      }
    }
  }

  // ----- one request after another

  /** A request to collect, what the choice of its range looks at, what ends it early, and
      what clients write meanwhile. */
  datatype Job = Job(startChunkID: int, endChunkID: int, nextGC: nat, disk: seq<nat>, first: seq<Option<int>>,
                     time: int, noGCDays: int, confDays: int, cancelAt: nat, failChunk: nat, failAt: int, env: Env)

  function Stats(chunks: seq<DataChunk>, job: Job): (s: seq<Stat>)
    ensures |s| == |chunks|
  {
    seq(|chunks|, x requires 0 <= x < |chunks| =>
      Stat(chunks[x].size, if x < |job.disk| then job.disk[x] else 0, if x < |job.first| then job.first[x] else None))
  }

  /** All writes that clients make. */
  function Writes(jobs: seq<Job>): seq<ClientWrite> {
    if jobs == [] then [] else jobs[0].env.ws + Writes(jobs[1..])
  }

  /** The records of the writes that came to be made: ns[m] of them during job m. */
  function Made(jobs: seq<Job>, ns: seq<nat>): seq<Record>
    requires |ns| <= |jobs| && forall m :: 0 <= m < |ns| ==> ns[m] <= |jobs[m].env.ws|
  {
    if ns == [] then []
    else
      var m := |ns| - 1;
      Made(jobs, ns[..m]) + Recs(jobs[m].env.ws[..ns[m]])
  }

  lemma MadeNext(jobs: seq<Job>, ns: seq<nat>, n: nat)
    requires |ns| < |jobs| && (forall m :: 0 <= m < |ns| ==> ns[m] <= |jobs[m].env.ws|)
             && n <= |jobs[|ns|].env.ws|
    ensures Made(jobs, ns + [n]) == Made(jobs, ns) + Recs(jobs[|ns|].env.ws[..n])
    ensures n == 0 ==> Made(jobs, ns + [n]) == Made(jobs, ns)
  {
    assert jobs[|ns|].env.ws[..0] == [];
    assert (ns + [n])[..|ns|] == ns;
  }

  lemma {:induction false} ReplayMore(a: seq<Record>, z: seq<Record>, more: seq<Record>)
    requires Replay(a) == Replay(z)
    ensures Replay(a + more) == Replay(z + more)
  {
    if more == [] {
      assert a + more == a && z + more == z;
    } else {
      var m := |more| - 1;
      ReplayMore(a, z, more[..m]);
      assert (a + more)[..|a| + m] == a + more[..m] && (z + more)[..|z| + m] == z + more[..m];
    }
  }

  /** A state in which a collection can start: tree and log agree, and the log ends in
      chunk head. */
  ghost predicate Standing(logs: seq<seq<Record>>, htree: map<Key, Entry>, head: nat) {
    && head < |logs| && Sound(Before(logs, htree, 0, 0)) && TreeMatchesLog(Before(logs, htree, 0, 0))
    && EmptyAfter(Before(logs, htree, 0, 0), head)
  }

  lemma HeadExists(logs: seq<seq<Record>>, htree: map<Key, Entry>, head: nat)
    requires Standing(logs, htree, head)
    ensures head < |logs|
  {
  }

  lemma AnyRange(logs: seq<seq<Record>>, htree: map<Key, Entry>, head: nat, ws: seq<ClientWrite>, lo: nat, hi: nat)
    requires Standing(logs, htree, head) && Room(logs, ws) && lo <= hi < |logs|
    ensures var b := Before(logs, htree, lo, hi); Sound(b) && TreeMatchesLog(b) && EmptyAfter(b, head)
  {
    hide EncodeAll, LastOf, Flat, UpTo, RecAt, Load;
    var b, z := Before(logs, htree, lo, hi), Before(logs, htree, 0, 0);
    forall k | k in b.htree
      ensures EntryOk(b, k)
    {
      assert EntryOk(z, k);
    }
  }

  /** A collection that left between two chunks, destination behind source, leaves a state
      in which another can start. */
  lemma StandsAgain(c: Collector, b0: Before, env: Env, src: nat, head: nat, later: seq<ClientWrite>)
    requires c.Left(b0, env, src, 0) && c.dst < src && TreeMatchesLog(b0)
    requires b0.end < head < |b0.logs| && EmptyAfter(b0, head) && Orderly(env.ws + later, head, |b0.logs|)
    requires Room(b0.logs, env.ws + later)
    ensures c.served <= |env.ws|
    ensures var head' := HeadAfter(env.ws[..c.served], head);
            && Standing(c.now, c.htree, head') && Room(c.now, later) && head <= head'
            && Orderly(later, head', |b0.logs|)
  {
    hide EncodeAll, LastOf, Flat, RecAt, Load, TreeMatchesLog, Sound, Room, Collector.Reads, Pointers, ChunkIs, Recs,
      Thinned, Survivors, Of, Ranged, AddAll, LastUpTo;
    var ws := env.ws;
    var head' := HeadAfter(ws[..c.served], head);
    var b := c.b;
    assert forall j :: 0 <= j < |ws| ==> ws[j] == (ws + later)[j];
    assert forall j :: 0 <= j < |later| ==> later[j] == (ws + later)[|ws| + j];
    ServedMatch(b0, env, b, c.served, c.written, head);
    Starts(b.logs[src]);
    LeftLogIs(b, c.kept, src, c.dst);
    RoomLeft(b0, ws, c.served, later, c.now, head);
    assert |EncodeAll(c.now[0])| <= DATA_FILE_MAX by { RoomHas(c.now, later, 0); }
    MatchesAgain(b, c.htree, c.now, c.kept, c.written, src, c.dst, 0, 0);
    SoundAgain(b, c.htree, c.now, c.kept, c.written, src, c.dst, 0, 0);
  }

  lemma RoomHas(logs: seq<seq<Record>>, ws: seq<ClientWrite>, x: nat)
    requires Room(logs, ws) && x < |logs|
    ensures |EncodeAll(logs[x])| <= DATA_FILE_MAX
  {
    hide EncodeAll, Load;
  }

  lemma WritesNext(jobs: seq<Job>, done: nat, logs: seq<seq<Record>>, head: nat)
    requires done < |jobs| && Orderly(Writes(jobs[done..]), head, |logs|) && Room(logs, Writes(jobs[done..]))
    ensures Writes(jobs[done..]) == jobs[done].env.ws + Writes(jobs[done + 1..])
    ensures Orderly(jobs[done].env.ws, head, |logs|)
    ensures Orderly(Writes(jobs[done + 1..]), head, |logs|) && Room(logs, Writes(jobs[done + 1..]))
  {
    hide Orderly, Room;
    assert jobs[done..][1..] == jobs[done + 1..];
    OrderlyParts(jobs[done].env.ws, Writes(jobs[done + 1..]), head, |logs|);
    RoomLater(logs, jobs[done].env.ws, Writes(jobs[done + 1..]));
  }

  lemma OrderlyParts(ws: seq<ClientWrite>, later: seq<ClientWrite>, head: nat, n: nat)
    requires Orderly(ws + later, head, n)
    ensures Orderly(ws, head, n) && Orderly(later, head, n)
  {
    hide Storable;
    var all := ws + later;
    assert forall j :: 0 <= j < |ws| ==> ws[j] == all[j];
    assert forall j :: 0 <= j < |later| ==> later[j] == all[|ws| + j];
  }

  lemma RoomLater(logs: seq<seq<Record>>, ws: seq<ClientWrite>, later: seq<ClientWrite>)
    requires Room(logs, ws + later)
    ensures Room(logs, later)
  {
    hide EncodeAll, Load;
    forall x | 0 <= x < |logs|
      ensures |EncodeAll(logs[x])| + Load(later, x) <= DATA_FILE_MAX
    {
      LoadConcat(ws, later, x);
    }
  }

  /** What there is between two requests. */
  datatype Snap = Snap(logs: seq<seq<Record>>, htree: map<Key, Entry>, head: nat)

  ghost predicate IsStats(stats: seq<Stat>, logs: seq<seq<Record>>, job: Job) {
    && |stats| == |logs|
    && forall x :: 0 <= x < |stats| ==>
         && stats[x].size == |EncodeAll(logs[x])|
         && stats[x].disk == (if x < |job.disk| then job.disk[x] else 0)
         && stats[x].first == (if x < |job.first| then job.first[x] else None)
  }

  /** The range [begin, end] was collected, n client writes beside it, and what is left is the
      log before it, the survivors, and what was not read. */
  ghost predicate Collected(pre: Snap, job: Job, logs: seq<seq<Record>>, n: nat, begin: nat, end: nat,
                            kept: seq<Record>, written: set<Key>, src: nat, dst: nat, i: nat) {
    && n <= |job.env.ws| && Orderly(job.env.ws, pre.head, |pre.logs|)
    && (src <= end ==> if src == job.cancelAt then i == 0 else src == job.failChunk && i == job.failAt)
    && var b := AddAll(Before(pre.logs, pre.htree, begin, end), job.env.ws[..n]);
       Account(b, kept, written, src, i) && Flat(logs) == LeftLog(b, kept, src, dst)
  }

  /** What a request does: nothing if it is refused, else a collection of the range granted. */
  ghost predicate Answered(pre: Snap, job: Job, logs: seq<seq<Record>>, htree: map<Key, Entry>, n: nat,
                           accepted: bool, begin: nat, end: nat, stats: seq<Stat>, c: int)
  {
    && IsStats(stats, pre.logs, job) && pre.head < |stats|
    && if accepted then
         && Grants(stats, pre.head, job.nextGC, job.startChunkID, job.endChunkID, job.time, job.noGCDays, job.confDays,
                   begin, end, c)
         && exists kept, written, src, dst, i :: Collected(pre, job, logs, n, begin, end, kept, written, src, dst, i)
       else
         && (forall begin': nat, end', c' ::
               !Grants(stats, pre.head, job.nextGC, job.startChunkID, job.endChunkID, job.time, job.noGCDays,
                       job.confDays, begin', end', c'))
         && logs == pre.logs && htree == pre.htree && n == 0
  }

  ghost predicate OneRequest(pre: Snap, job: Job, logs: seq<seq<Record>>, htree: map<Key, Entry>, n: nat) {
    exists accepted, begin, end, stats, c :: Answered(pre, job, logs, htree, n, accepted, begin, end, stats, c)
  }

  lemma StatsAre(chunks: seq<DataChunk>, logs: seq<seq<Record>>, job: Job)
    requires |chunks| == |logs| && forall x :: 0 <= x < |chunks| ==> ChunkIs(chunks[x], logs[x])
    ensures IsStats(Stats(chunks, job), logs, job)
  {
    hide EncodeAll;
    var stats := Stats(chunks, job);
    forall x | 0 <= x < |stats|
      ensures stats[x].size == |EncodeAll(logs[x])|
    {
      assert ChunkIs(chunks[x], logs[x]);
    }
  }

  lemma LeftCollected(c: Collector, pre: Snap, job: Job, b0: Before, src: nat, i: nat)
    requires c.Left(b0, job.env, src, i) && b0 == Before(pre.logs, pre.htree, b0.begin, b0.end)
    requires Orderly(job.env.ws, pre.head, |pre.logs|)
    requires src <= b0.end ==> if src == job.cancelAt then i == 0 else src == job.failChunk && i == job.failAt
    ensures c.served <= |job.env.ws|
    ensures Collected(pre, job, c.now, c.served, b0.begin, b0.end, c.kept, c.written, src, c.dst, i)
  {
    hide EncodeAll, ChunkIs, Sound, Pointers, Settled, Layout, Flat, Collector.Reads, Thinned, Survivors, Of, Ranged,
      Packed, AddAll, Orderly;
    LeftLogIs(c.b, c.kept, src, c.dst);
  }

  /** One request. The live records are kept; if the collection cut its source off they are if
      and only if that does no harm. If it left between two chunks, destination behind source,
      another request may follow. */
  method CollectOne(c: Collector, job: Job, head: nat, ghost later: seq<ClientWrite>)
    returns (head': nat, again: bool, lost: bool, ghost src: nat, ghost i: nat, ghost n: nat)
    requires |c.chunks| == |c.now| && forall x :: 0 <= x < |c.chunks| ==> ChunkIs(c.chunks[x], c.now[x])
    requires Standing(c.now, c.htree, head) && Room(c.now, job.env.ws + later)
    requires Orderly(job.env.ws + later, head, |c.now|)
    modifies c
    ensures |c.chunks| == |c.now| == |old(c.now)|
    ensures forall x :: 0 <= x < |c.chunks| ==> ChunkIs(c.chunks[x], c.now[x])
    ensures OneRequest(Snap(old(c.now), old(c.htree), head), job, c.now, c.htree, n) && n <= |job.env.ws|
    ensures again ==> !lost && Standing(c.now, c.htree, head') && Room(c.now, later) && Orderly(later, head', |c.now|)
    ensures !again ==> c.b.begin <= src < |c.b.logs| && i <= |c.b.logs[src]| && (lost || i > 0)
    ensures !lost ==> Replay(Flat(c.now)) == Replay(old(Flat(c.now)) + Recs(job.env.ws[..n]))
    ensures lost ==> c.dst == src
    ensures lost ==>
              (Replay(Flat(c.now)) == Replay(old(Flat(c.now)) + Recs(job.env.ws[..n])) <==> Harmless(c.b, src, i))
  {
    hide EncodeAll, Replay, Flat, ChunkIs, Sound, Harmless, TreeMatchesLog, Standing, Room, Orderly, Stats, Recs,
      Collector.Left, Decides, Grants, Collected, IsStats;
    ghost var pre := Snap(c.now, c.htree, head);
    head', again, lost, src, i, n := head, true, false, 0, 0, 0;
    HeadExists(c.now, c.htree, head);
    OrderlyParts(job.env.ws, later, head, |c.now|);
    RoomLater(c.now, job.env.ws, later);
    StatsAre(c.chunks, c.now, job);
    var stats := Stats(c.chunks, job);
    var begin, end, a, next := CheckRange(stats, head, job.nextGC, job.startChunkID, job.endChunkID, job.time,
                                          job.noGCDays, job.confDays);
    if !a.Accepted? {
      NoneMade(job.env.ws, Flat(c.now));
      assert Answered(pre, job, c.now, c.htree, n, false, 0, 0, stats, 0);
      return;
    }
    AnyRange(c.now, c.htree, head, job.env.ws + later, begin, end);
    ghost var b := Before(c.now, c.htree, begin, end);
    var s, j := CollectThenRecover(c, begin, end, job.cancelAt, job.failChunk, job.failAt, b, job.env, head);
    LeftChunks(c, b, job.env, s, j);
    LeftCollected(c, pre, job, b, s, j);
    n := c.served;
    assert Answered(pre, job, c.now, c.htree, n, true, begin, end, stats, next);
    if c.dst < s && (s > end || s == job.cancelAt || job.failAt == 0) {
      StandsAgain(c, b, job.env, s, head, later);
      head' := HeadAfter(job.env.ws[..c.served], head);
    } else {
      again, lost, src, i := false, c.dst == s, s, j;
    }
  }

  lemma NoneMade(ws: seq<ClientWrite>, log: seq<Record>)
    ensures log + Recs(ws[..0]) == log
  {
  }

  /** The requests so far were answered, with ns[m] writes beside request m. */
  ghost predicate Answers(jobs: seq<Job>, ns: seq<nat>, trace: seq<Snap>) {
    && |ns| <= |jobs| && |trace| == |ns| + 1
    && forall m :: 0 <= m < |ns| ==>
         ns[m] <= |jobs[m].env.ws| && OneRequest(trace[m], jobs[m], trace[m + 1].logs, trace[m + 1].htree, ns[m])
  }

  lemma AnswersNext(jobs: seq<Job>, ns: seq<nat>, trace: seq<Snap>, n: nat, post: Snap)
    requires Answers(jobs, ns, trace) && |ns| < |jobs| && n <= |jobs[|ns|].env.ws|
    requires OneRequest(trace[|ns|], jobs[|ns|], post.logs, post.htree, n)
    ensures Answers(jobs, ns + [n], trace + [post])
  {
    hide OneRequest;
    var ns', trace' := ns + [n], trace + [post];
    forall m | 0 <= m < |ns'|
      ensures ns'[m] <= |jobs[m].env.ws|
      ensures OneRequest(trace'[m], jobs[m], trace'[m + 1].logs, trace'[m + 1].htree, ns'[m])
    {
      assert m < |ns| ==> trace'[m + 1] == trace[m + 1] && trace'[m] == trace[m] && ns'[m] == ns[m];
    }
  }

  lemma NothingMade(jobs: seq<Job>, log: seq<Record>)
    ensures log + Made(jobs, []) == log
  {
  }

  /** Requests to collect, one after another, until one leaves in the middle of a chunk or
      with its source cut off. All live records are kept; if the last collection cut its
      source off they are if and only if that does no harm. */
  method CollectAll(c: Collector, jobs: seq<Job>, newHead: nat, ghost b0: Before)
    returns (done: nat, head: nat, again: bool, lost: bool, ghost src: nat, ghost i: nat, ghost ns: seq<nat>,
             ghost trace: seq<Snap>)
    requires Standing(b0.logs, b0.htree, newHead)
    requires Orderly(Writes(jobs), newHead, |b0.logs|) && Room(b0.logs, Writes(jobs))
    requires |c.chunks| == |b0.logs| && c.htree == b0.htree
    requires forall x :: 0 <= x < |c.chunks| ==> ChunkIs(c.chunks[x], b0.logs[x])
    modifies c
    ensures |c.chunks| == |c.now| && forall x :: 0 <= x < |c.chunks| ==> ChunkIs(c.chunks[x], c.now[x])
    ensures |ns| == done && Answers(jobs, ns, trace) && trace[0] == Snap(b0.logs, b0.htree, newHead)
    ensures trace[done].logs == c.now && trace[done].htree == c.htree
    ensures again ==> done == |jobs| && !lost && Standing(c.now, c.htree, head)
    ensures !again ==> 0 < done && c.b.begin <= src < |c.b.logs| && i <= |c.b.logs[src]| && (lost || i > 0)
    ensures !lost ==> Replay(Flat(c.now)) == Replay(Flat(b0.logs) + Made(jobs, ns))
    ensures lost ==> c.dst == src
    ensures lost ==> (Replay(Flat(c.now)) == Replay(Flat(b0.logs) + Made(jobs, ns)) <==> Harmless(c.b, src, i))
  {
    hide EncodeAll, Replay, Flat, ChunkIs, Harmless, Standing, Room, Orderly, Writes, Recs, OneRequest, Made;
    c.now := b0.logs;
    done, head, again, lost, src, i, ns, trace := 0, newHead, true, false, 0, 0, [], [Snap(b0.logs, b0.htree, newHead)];
    assert jobs[0..] == jobs;
    NothingMade(jobs, Flat(b0.logs));
    while done < |jobs| && again
      invariant |ns| == done <= |jobs| && Answers(jobs, ns, trace) && trace[0] == Snap(b0.logs, b0.htree, newHead)
      invariant trace[done].logs == c.now && trace[done].htree == c.htree && (again ==> trace[done].head == head)
      invariant |c.chunks| == |c.now| && forall x :: 0 <= x < |c.chunks| ==> ChunkIs(c.chunks[x], c.now[x])
      invariant again ==> !lost && Standing(c.now, c.htree, head)
      invariant again ==> Orderly(Writes(jobs[done..]), head, |c.now|) && Room(c.now, Writes(jobs[done..]))
      invariant !again ==> 0 < done && c.b.begin <= src < |c.b.logs| && i <= |c.b.logs[src]| && (lost || i > 0)
      invariant !lost ==> Replay(Flat(c.now)) == Replay(Flat(b0.logs) + Made(jobs, ns))
      invariant lost ==> c.dst == src
      invariant lost ==> (Replay(Flat(c.now)) == Replay(Flat(b0.logs) + Made(jobs, ns)) <==> Harmless(c.b, src, i))
    {
      var job := jobs[done];
      WritesNext(jobs, done, c.now, head);
      ghost var log, log0, n := Flat(c.now), Flat(b0.logs) + Made(jobs, ns), 0;
      head, again, lost, src, i, n := CollectOne(c, job, head, Writes(jobs[done + 1..]));
      ReplayMore(log, log0, Recs(job.env.ws[..n]));
      MadeNext(jobs, ns, n);
      ConcatAssoc(Flat(b0.logs), Made(jobs, ns), Recs(job.env.ws[..n]));
      AnswersNext(jobs, ns, trace, n, Snap(c.now, c.htree, head));
      ns, trace, done := ns + [n], trace + [Snap(c.now, c.htree, head)], done + 1;
    }
  }

  lemma LeftChunks(c: Collector, b0: Before, env: Env, src: nat, i: nat)
    requires c.Left(b0, env, src, i)
    ensures |c.chunks| == |c.now| == |b0.logs| && c.served <= |env.ws| && c.dst <= src
    ensures forall x :: 0 <= x < |c.chunks| ==> ChunkIs(c.chunks[x], c.now[x])
  {
    hide EncodeAll, ChunkIs, Sound, Account, Pointers, Settled, Layout, Flat, Collector.Reads;
  }
}
