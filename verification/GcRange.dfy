/**
  The choice of a range to collect: it starts at a chunk that is not empty, ends at one
  that is not empty, and above it lies a chunk on disk whose first record is old enough.
*/
module GcRange {
  import opened Bytes
  import opened Records
  import opened DataStore
  import opened Gc

  /** What the choice looks at: the size with what is still buffered, the size on disk, and
      the time of the first record, if it can be read. */
  datatype Stat = Stat(size: nat, disk: nat, first: Option<int>)

  datatype Answer = Accepted | BeyondHead | Unreadable | NoneOldEnough | NothingLeft

  const SECONDS_A_DAY := 86400

  predicate Old(s: Stat, now: int, days: int) {
    s.first.Some? && now - s.first.value > days * SECONDS_A_DAY
  }

  predicate Young(s: Stat, now: int, days: int) {
    s.first.Some? && now - s.first.value <= days * SECONDS_A_DAY
  }

  /** The last chunk a request may ask for, given the chunk that is appended to. */
  ghost function LastAsked(newHead: nat, endChunkID: int): (e: int)
    ensures e < newHead
  {
    if 0 <= endChunkID < newHead then endChunkID else newHead - 1
  }

  /** c is the highest chunk on disk, in (lo, hi], that is not young. */
  ghost predicate Decides(chunks: seq<Stat>, now: int, days: int, lo: int, hi: int, c: int)
    requires 0 <= lo && hi < |chunks|
  {
    && lo < c <= hi && chunks[c].disk > 0 && !Young(chunks[c], now, days)
    && forall d :: c < d <= hi && chunks[d].disk > 0 ==> Young(chunks[d], now, days)
  }

  lemma DecidesOnce(chunks: seq<Stat>, now: int, days: int, lo: int, hi: int, c: int, d: int)
    requires 0 <= lo && hi < |chunks|
    requires Decides(chunks, now, days, lo, hi, c) && Decides(chunks, now, days, lo, hi, d)
    ensures c == d
  {
  }

  /** A range that a request gets: from the first chunk that is not empty to the last one
      below the chunk that decides, which is old. */
  ghost predicate Chosen(chunks: seq<Stat>, newHead: nat, from: int, top: int, now: int, days: int,
                         start: nat, end: int, c: int)
    requires newHead < |chunks| && top < newHead
  {
    && from <= start < newHead && chunks[start].size > 0 && (forall d :: 0 <= from <= d < start ==> chunks[d].size == 0)
    && Decides(chunks, now, days, start, top + 1, c) && Old(chunks[c], now, days)
    && start <= end < c && chunks[end].size > 0 && forall d :: end < d < c ==> chunks[d].size == 0
  }

  ghost predicate Grants(chunks: seq<Stat>, newHead: nat, nextGC: nat, startChunkID: int, endChunkID: int,
                         now: int, noGCDays: int, confDays: int, start: nat, end: int, c: int)
    requires newHead < |chunks|
  {
    && startChunkID <= newHead
    && Chosen(chunks, newHead, if startChunkID < 0 then nextGC else startChunkID, LastAsked(newHead, endChunkID),
              now, if noGCDays < 0 then confDays else noGCDays, start, end, c)
  }

  /** A request gets one range at most. */
  lemma ChosenOnce(chunks: seq<Stat>, newHead: nat, from: nat, top: int, now: int, days: int,
                   start: nat, end: int, c: int, start': nat, end': int, c': int)
    requires newHead < |chunks| && top < newHead
    requires Chosen(chunks, newHead, from, top, now, days, start, end, c)
    requires Chosen(chunks, newHead, from, top, now, days, start', end', c')
    ensures start == start' && end == end' && c == c'
  {
    assert start == start';
    DecidesOnce(chunks, now, days, start, top + 1, c, c');
  }

  /** The first chunk to collect is the first one that is not empty. */
  method CheckStart(chunks: seq<Stat>, newHead: nat, nextGC: nat, startChunkID: int) returns (start: nat, ok: bool)
    requires newHead < |chunks|
    ensures ok <==> startChunkID <= newHead
    ensures ok ==>
              var from := if startChunkID < 0 then nextGC else startChunkID;
              && from <= start && (if from < newHead then start <= newHead else start == from)
              && (start < newHead ==> chunks[start].size > 0)
              && forall c :: from <= c < start ==> chunks[c].size == 0
  {
    if startChunkID < 0 {
      start := nextGC;
    } else if startChunkID > newHead {
      return 0, false;
    } else {
      start := startChunkID;
    }
    ghost var from := start;
    while start < newHead
      invariant from <= start && (if from < newHead then start <= newHead else start == from)
      invariant forall c :: from <= c < start ==> chunks[c].size == 0
    {
      if chunks[start].size > 0 {
        break;
      }
      start := start + 1;
    }
    ok := true;
  }

  /** The last chunk to collect is the last one that is not empty, below the highest chunk
      that is old enough. A younger one is passed over, one that cannot be read is an error. */
  method CheckEnd(chunks: seq<Stat>, newHead: nat, start: nat, endChunkID: int, now: int, days: int)
    returns (end: int, a: Answer, ghost next: int)
    requires newHead < |chunks|
    ensures a in {Accepted, Unreadable, NoneOldEnough}
    ensures a.NoneOldEnough? <==> forall c ::
              start < c <= LastAsked(newHead, endChunkID) + 1 && chunks[c].disk > 0 ==> Young(chunks[c], now, days)
    ensures !a.NoneOldEnough? ==> Decides(chunks, now, days, start, LastAsked(newHead, endChunkID) + 1, next)
    ensures !a.NoneOldEnough? ==> (a.Accepted? <==> Old(chunks[next], now, days))
    ensures a.Accepted? ==> start - 1 <= end < next && (start <= end ==> chunks[end].size > 0)
    ensures a.Accepted? ==> forall c :: start <= c && end < c < next ==> chunks[c].size == 0
  {
    end := endChunkID;
    if end < 0 || end >= newHead - 1 {
      end := newHead - 1;
    }
    ghost var hi := end + 1;
    var n := end + 1;
    next := n;
    while n >= start + 1
      invariant n <= hi && forall d :: start < d && n < d <= hi && chunks[d].disk > 0 ==> Young(chunks[d], now, days)
    {
      next := n;
      if chunks[n].disk > 0 {
        if chunks[n].first.None? {
          return end, Unreadable, next;
        }
        if now - chunks[n].first.value > days * SECONDS_A_DAY {
          end := n - 1;
          while end >= start
            invariant start - 1 <= end < n
            invariant forall c :: start <= c && end < c < n ==> chunks[c].size == 0
          {
            if chunks[end].size > 0 {
              break;
            }
            end := end - 1;
          }
          return end, Accepted, next;
        }
      }
      n := n - 1;
    }
    a := NoneOldEnough;
  }

  /** The range to collect. The test for an empty range never fails: the first chunk is not
      empty and lies below the one that decides. */
  method CheckRange(chunks: seq<Stat>, newHead: nat, nextGC: nat, startChunkID: int, endChunkID: int,
                    now: int, noGCDays: int, confDays: int)
    returns (start: nat, end: int, a: Answer, ghost next: int)
    requires newHead < |chunks|
    ensures a != NothingLeft
    ensures a.BeyondHead? <==> startChunkID > newHead
    ensures a.Accepted? ==>
              Grants(chunks, newHead, nextGC, startChunkID, endChunkID, now, noGCDays, confDays, start, end, next)
    ensures !a.Accepted? ==> forall start': nat, end', c ::
              !Grants(chunks, newHead, nextGC, startChunkID, endChunkID, now, noGCDays, confDays, start', end', c)
    ensures a.Accepted? ==>
              && Decides(chunks, now, if noGCDays < 0 then confDays else noGCDays, start,
                         LastAsked(newHead, endChunkID) + 1, next)
              && end <= LastAsked(newHead, endChunkID)
    ensures a.Accepted? ==>
              && start <= end < next <= newHead && chunks[start].size > 0 && chunks[end].size > 0
              && chunks[next].disk > 0 && Old(chunks[next], now, if noGCDays < 0 then confDays else noGCDays)
    ensures a.Accepted? ==>
              && (forall c :: (if startChunkID < 0 then nextGC else startChunkID) <= c < start ==> chunks[c].size == 0)
              && forall c :: end < c < next ==> chunks[c].size == 0
    ensures !a.BeyondHead? ==>
              (a.Accepted? <==> exists c ::
                 && Decides(chunks, now, if noGCDays < 0 then confDays else noGCDays, start,
                            LastAsked(newHead, endChunkID) + 1, c)
                 && Old(chunks[c], now, if noGCDays < 0 then confDays else noGCDays))
  {
    var ok;
    start, ok := CheckStart(chunks, newHead, nextGC, startChunkID);
    if !ok {
      return start, 0, BeyondHead, 0;
    }
    var days := if noGCDays < 0 then confDays else noGCDays;
    end, a, next := CheckEnd(chunks, newHead, start, endChunkID, now, days);
    ghost var hi := LastAsked(newHead, endChunkID) + 1;
    if a.Unreadable? {
      forall c | Decides(chunks, now, days, start, hi, c)
        ensures c == next
      {
        DecidesOnce(chunks, now, days, start, hi, c, next);
      }
    }
    if !a.Accepted? {
      return;
    }
    if end < start {
      a := NothingLeft;
    }
  }

  // ----- the range and the records

  ghost predicate StatOf(s: Stat, log: seq<Record>) {
    s.size == |EncodeAll(log)| && s.disk <= s.size
  }

  /** What an accepted range has: records in its first and its last chunk and above it. */
  ghost predicate Collectable(b: Before) {
    && b.begin <= b.end < |b.logs| && b.logs[b.begin] != [] && b.logs[b.end] != []
    && exists c :: b.end < c < |b.logs| && b.logs[c] != []
  }

  lemma AcceptedIsCollectable(chunks: seq<Stat>, b: Before, next: nat)
    requires |chunks| == |b.logs| && forall c :: 0 <= c < |chunks| ==> StatOf(chunks[c], b.logs[c])
    requires b.begin <= b.end < next < |chunks| && chunks[b.begin].size > 0 && chunks[b.end].size > 0
    requires chunks[next].disk > 0
    ensures Collectable(b)
  {
    EmptyLog();
    assert StatOf(chunks[b.begin], b.logs[b.begin]) && StatOf(chunks[b.end], b.logs[b.end]);
    assert StatOf(chunks[next], b.logs[next]);
    assert b.logs[next] != [];
  }
}
