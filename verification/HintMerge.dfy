/**
  Merging index files: the readers' items in one order, only the newest item of
  each key kept, and keys that share a hash reported to the collision table.
*/
module HintMerge {
  import opened Bytes
  import opened HintItems
  import opened Collision

  // ----- the order of the merge

  /** mergeHeap.Less: by hash, then key, then position. */
  predicate Earlier(a: HintItem, b: HintItem) {
    if a.hash != b.hash then a.hash < b.hash
    else if a.key != b.key then KeyLess(a.key, b.key)
    else CmpKey(a) < CmpKey(b)
  }

  lemma EarlierIs(a: HintItem, b: HintItem)
    ensures !SameId(a, b) ==> (Earlier(a, b) <==> Less(a, b))
    ensures SameId(a, b) ==> (Earlier(a, b) <==> CmpKey(a) < CmpKey(b))
  {
  }

  /** Not after. */
  predicate Leq(a: HintItem, b: HintItem) {
    !Earlier(b, a)
  }

  lemma LeqCases(a: HintItem, b: HintItem)
    ensures Leq(a, b) <==> Less(a, b) || (SameId(a, b) && CmpKey(a) <= CmpKey(b))
  {
    hide KeyLess, CmpKey;
    EarlierIs(b, a);
    LessTotal(a, b);
    LessTotal(b, a);
  }

  lemma LeqTrans(a: HintItem, b: HintItem, c: HintItem)
    requires Leq(a, b) && Leq(b, c)
    ensures Leq(a, c)
  {
    hide Leq, CmpKey, Less;
    LeqCases(a, b);
    LeqCases(b, c);
    LeqCases(a, c);
    if Less(a, b) && Less(b, c) {
      LessTrans(a, b, c);
    }
    SameLess(a, b, c);
  }

  lemma SameLess(a: HintItem, b: HintItem, c: HintItem)
    ensures SameId(a, b) && Less(b, c) ==> Less(a, c)
    ensures Less(a, b) && SameId(b, c) ==> Less(a, c)
  {
  }

  ghost predicate Ordered(s: seq<HintItem>) {
    forall i, j :: 0 <= i < j < |s| ==> Leq(s[i], s[j])
  }

  // ----- one item per key

  /** Of neighbours with the same key, the last. */
  function Dedup(s: seq<HintItem>): seq<HintItem> {
    if s == [] then []
    else
      var d, it := Dedup(s[..|s| - 1]), s[|s| - 1];
      if d != [] && SameId(d[|d| - 1], it) then d[..|d| - 1] + [it] else d + [it]
  }

  lemma DedupSnoc(s: seq<HintItem>, it: HintItem)
    ensures var d := Dedup(s);
            Dedup(s + [it]) == if d != [] && SameId(d[|d| - 1], it) then d[..|d| - 1] + [it] else d + [it]
  {
    assert (s + [it])[..|s|] == s;
  }

  /** d has an item for the key of x that is no older. */
  ghost predicate Covered(x: HintItem, d: seq<HintItem>) {
    exists j :: 0 <= j < |d| && SameId(x, d[j]) && CmpKey(x) <= CmpKey(d[j])
  }

  ghost predicate Within(d: seq<HintItem>, s: seq<HintItem>) {
    forall i :: 0 <= i < |d| ==> d[i] in s
  }

  ghost predicate AllCovered(s: seq<HintItem>, d: seq<HintItem>) {
    forall i :: 0 <= i < |s| ==> Covered(s[i], d)
  }

  /** d holds, in strict order, the newest item of each key of s. */
  ghost predicate Newest(d: seq<HintItem>, s: seq<HintItem>) {
    Sorted(d) && Within(d, s) && AllCovered(s, d)
  }

  lemma {:induction false} DedupNewest(s: seq<HintItem>)
    requires Ordered(s)
    ensures Newest(Dedup(s), s)
    ensures s != [] ==> Dedup(s) != [] && Dedup(s)[|Dedup(s)| - 1] == s[|s| - 1]
  {
    hide Newest, Leq, SameId, Dedup;
    DedupEmpty();
    if s == [] {
      Trivially();
    } else {
      var m := |s| - 1;
      DedupNewest(s[..m]);
      NewestSnoc(Dedup(s[..m]), s[..m], s[m]);
      DedupSnoc(s[..m], s[m]);
      assert s == s[..m] + [s[m]];
    }
  }

  lemma Trivially()
    ensures Newest([], [])
  {
  }

  lemma DedupEmpty()
    ensures Dedup([]) == []
  {
  }

  lemma NewestSnoc(d: seq<HintItem>, s: seq<HintItem>, it: HintItem)
    requires Newest(d, s) && (if s == [] then d == [] else d != [] && d[|d| - 1] == s[|s| - 1])
    requires forall i :: 0 <= i < |s| ==> Leq(s[i], it)
    ensures Newest(if d != [] && SameId(d[|d| - 1], it) then d[..|d| - 1] + [it] else d + [it], s + [it])
  {
    hide Leq, Newest, Less, SameId, CmpKey;
    if s == [] {
      FirstOne(it);
    } else {
      LeqCases(d[|d| - 1], it);
      LessTotal(d[|d| - 1], it);
      if SameId(d[|d| - 1], it) {
        ReplaceLast(d, s, it);
      } else {
        AddLast(d, s, it);
      }
    }
  }

  lemma FirstOne(it: HintItem)
    ensures Newest([] + [it], [] + [it])
  {
    CoveredBy(it, [] + [it], 0);
  }

  lemma ReplaceLast(d: seq<HintItem>, s: seq<HintItem>, it: HintItem)
    requires Newest(d, s) && d != [] && SameId(d[|d| - 1], it) && CmpKey(d[|d| - 1]) <= CmpKey(it)
    ensures Newest(d[..|d| - 1] + [it], s + [it])
  {
    hide CmpKey, KeyLess, Covered;
    var d', s' := d[..|d| - 1] + [it], s + [it];
    forall i, j | 0 <= i < j < |d'|
      ensures Less(d'[i], d'[j])
    {
      assert Less(d[i], d[j]);
    }
    forall i | 0 <= i < |s'|
      ensures Covered(s'[i], d')
    {
      if i < |s| {
        StillCovered(s[i], d, it);
      } else {
        CoveredBy(it, d', |d| - 1);
      }
    }
  }

  lemma CoveredBy(x: HintItem, d: seq<HintItem>, j: nat)
    requires j < |d| && SameId(x, d[j]) && CmpKey(x) <= CmpKey(d[j])
    ensures Covered(x, d)
  {
  }

  lemma StillCovered(x: HintItem, d: seq<HintItem>, it: HintItem)
    requires Covered(x, d) && d != [] && SameId(d[|d| - 1], it) && CmpKey(d[|d| - 1]) <= CmpKey(it)
    ensures Covered(x, d[..|d| - 1] + [it])
  {
    hide CmpKey;
    var j :| 0 <= j < |d| && SameId(x, d[j]) && CmpKey(x) <= CmpKey(d[j]);
    CoveredBy(x, d[..|d| - 1] + [it], j);
  }

  lemma AddLast(d: seq<HintItem>, s: seq<HintItem>, it: HintItem)
    requires Newest(d, s) && d != [] && Less(d[|d| - 1], it)
    ensures Newest(d + [it], s + [it])
  {
    hide CmpKey, Less, Covered;
    var last, d', s' := d[|d| - 1], d + [it], s + [it];
    forall i, j | 0 <= i < j < |d'|
      ensures Less(d'[i], d'[j])
    {
      if j == |d| && i < |d| - 1 {
        LessTrans(d[i], last, it);
      }
    }
    forall i | 0 <= i < |s'|
      ensures Covered(s'[i], d')
    {
      if i < |s| {
        CoveredMore(s[i], d, it);
      } else {
        CoveredBy(it, d', |d|);
      }
    }
  }

  lemma CoveredMore(x: HintItem, d: seq<HintItem>, it: HintItem)
    requires Covered(x, d)
    ensures Covered(x, d + [it])
  {
    hide CmpKey;
    var j :| 0 <= j < |d| && SameId(x, d[j]) && CmpKey(x) <= CmpKey(d[j]);
    CoveredBy(x, d + [it], j);
  }

  // ----- the writer

  /** Another key of d has the same hash. */
  ghost predicate Shares(x: HintItem, d: seq<HintItem>) {
    exists j :: 0 <= j < |d| && d[j].hash == x.hash && d[j].key != x.key
  }

  /** Reported are exactly the items whose hash has another key. */
  ghost predicate Reported(offered: seq<HintItem>, d: seq<HintItem>) {
    forall x :: x in offered <==> x in d && Shares(x, d)
  }

  /** The pending items share one hash, larger than all those written out. */
  ghost predicate OneGroup(done: seq<HintItem>, buf: seq<HintItem>) {
    && (forall i :: 0 <= i < |buf| ==> buf[i].hash == buf[0].hash)
    && (buf != [] ==> forall i :: 0 <= i < |done| ==> done[i].hash < buf[0].hash)
  }

  ghost predicate WriterOk(s: seq<HintItem>, done: seq<HintItem>, buf: seq<HintItem>, offered: seq<HintItem>) {
    && done + buf == Dedup(s) && (s == [] ==> done == []) && (buf == [] ==> s == [])
    && OneGroup(done, buf) && Reported(offered, done)
  }

  /** Writing out a group keeps the reports right. */
  lemma GroupDone(done: seq<HintItem>, buf: seq<HintItem>, offered: seq<HintItem>)
    requires OneGroup(done, buf) && Reported(offered, done) && Sorted(done + buf)
    ensures Reported(offered + (if |buf| > 1 then buf else []), done + buf)
  {
    hide Less, Sorted;
    var d, more := done + buf, if |buf| > 1 then buf else [];
    forall x: HintItem
      ensures x in offered + more <==> x in d && Shares(x, d)
    {
      if x in done {
        SharesOld(done, buf, x);
      }
      if x in buf {
        SharesNew(done, buf, x);
      }
    }
  }

  lemma SharesOld(done: seq<HintItem>, buf: seq<HintItem>, x: HintItem)
    requires OneGroup(done, buf) && x in done
    ensures Shares(x, done + buf) <==> Shares(x, done)
    ensures x !in buf
  {
    var d := done + buf;
    var i :| 0 <= i < |done| && done[i] == x;
    if j :| 0 <= j < |d| && d[j].hash == x.hash && d[j].key != x.key {
      assert j < |done| && done[j] == d[j];
    }
    if j :| 0 <= j < |done| && done[j].hash == x.hash && done[j].key != x.key {
      assert d[j] == done[j];
    }
  }

  lemma SharesNew(done: seq<HintItem>, buf: seq<HintItem>, x: HintItem)
    requires OneGroup(done, buf) && Sorted(done + buf) && x in buf
    ensures Shares(x, done + buf) <==> |buf| > 1
  {
    hide Less;
    var d := done + buf;
    var i :| 0 <= i < |buf| && buf[i] == x;
    if |buf| > 1 {
      var j := if i == 0 then 1 else 0;
      assert d[|done| + i] == x && d[|done| + j] == buf[j];
      LessTotal(x, buf[j]);
      LessTotal(buf[j], x);
      assert d[|done| + j].key != x.key;
    } else {
      assert forall j :: 0 <= j < |d| ==> if j < |done| then d[j].hash < x.hash else d[j] == x;
    }
  }

  /** What a table holds for a key after items were offered to it one by one. */
  ghost function Told(t: Table, offered: seq<HintItem>, h: u64, k: Key): Option<HintItem> {
    if offered == [] then Filed(t, h, k)
    else
      var y, x := Told(t, offered[..|offered| - 1], h, k), offered[|offered| - 1];
      if Is(x, h, k) then Some(Newer(y, x)) else y
  }

  ghost predicate Tells(t': Table, t: Table, offered: seq<HintItem>) {
    forall h, k :: Filed(t', h, k) == Told(t, offered, h, k)
  }

  lemma TellsMore(t2: Table, t1: Table, t0: Table, offered: seq<HintItem>, it: HintItem)
    requires Tells(t1, t0, offered)
    requires Filed(t2, it.hash, it.key) == Some(Newer(Filed(t1, it.hash, it.key), it))
    requires forall h, k :: !Is(it, h, k) ==> Filed(t2, h, k) == Filed(t1, h, k)
    ensures Tells(t2, t0, offered + [it])
  {
    hide Filed, Newer;
    assert (offered + [it])[..|offered|] == offered;
  }

  class MergeWriter {
    const writing: bool  // whether there is a file to write
    const ct: CollisionTable
    var buf: seq<HintItem>
    var file: seq<HintItem>
    ghost var s: seq<HintItem>        // what it was given
    ghost var done: seq<HintItem>     // what it let go of
    ghost var offered: seq<HintItem>  // what the collision table was told
    ghost const t0: Table             // what it held before

    ghost predicate Valid()
      reads this, ct
    {
      && TableOk(ct.items) && Tells(ct.items, t0, offered) && Ordered(s) && WriterOk(s, done, buf, offered)
      && file == if writing then done else []
    }

    constructor (writing: bool, ct: CollisionTable)
      requires TableOk(ct.items)
      ensures Valid() && s == [] && this.ct == ct && this.writing == writing && t0 == ct.items
    {
      this.writing, this.ct, this.t0 := writing, ct, ct.items;
      buf, file, s, done, offered := [], [], [], [], [];
    }

    /** mergeWriter.flush */
    method Flush()
      requires Valid()
      modifies this, ct
      ensures TableOk(ct.items) && Tells(ct.items, t0, offered) && s == old(s) && buf == old(buf)
      ensures done == old(done + buf) && Reported(offered, done) && file == if writing then done else []
    {
      hide Ordered, Dedup, OneGroup, Reported, Newest, TableOk, Tells, Filed;
      DedupNewest(s);
      SortedPart(Dedup(s), s);
      GroupDone(done, buf, offered);
      if |buf| > 1 {
        assert offered + buf[..0] == offered;
        for i := 0 to |buf|
          invariant TableOk(ct.items) && Tells(ct.items, t0, offered + buf[..i])
          modifies ct
        {
          ghost var before := ct.items;
          ct.CompareAndSet(buf[i], false);
          TellsMore(ct.items, before, t0, offered + buf[..i], buf[i]);
          assert offered + buf[..i] + [buf[i]] == offered + buf[..i + 1];
        }
        assert buf[..|buf|] == buf;
        offered := offered + buf;
      }
      assert offered == old(offered) + (if |buf| > 1 then buf else []);
      if writing {
        file := file + buf;
      }
      done := done + buf;
    }

    /** mergeWriter.write */
    method Write(it: HintItem)
      requires Valid() && Ordered(s + [it])
      modifies this, ct
      ensures Valid() && s == old(s) + [it]
    {
      hide Ordered, Dedup, Newest, TableOk, Leq, Less, OneGroup, Reported, Tells;
      DedupSnoc(s, it);
      DedupNewest(s);
      WriteCases(s, done, buf, it);
      if |buf| == 0 {
        buf := [it];
      } else {
        var last := buf[|buf| - 1];
        if last.hash != it.hash {
          Flush();
          buf := [it];
        } else {
          if last.key != it.key {
            buf := buf + [it];
          } else {
            buf := buf[|buf| - 1 := it];
          }
        }
      }
      s := s + [it];
    }
  }

  lemma SortedPart(d: seq<HintItem>, s: seq<HintItem>)
    requires Newest(d, s)
    ensures Sorted(d)
  {
  }

  /** What each branch of write leaves. */
  lemma WriteCases(s: seq<HintItem>, done: seq<HintItem>, buf: seq<HintItem>, it: HintItem)
    requires Ordered(s + [it]) && done + buf == Dedup(s) && (buf == [] ==> s == []) && (s == [] ==> done == [])
             && OneGroup(done, buf)
    ensures buf == [] ==> Dedup(s + [it]) == [] + [it] && OneGroup([], [it])
    ensures buf != [] ==>
              var last := buf[|buf| - 1];
              if last.hash != it.hash then Dedup(s + [it]) == done + buf + [it] && OneGroup(done + buf, [it])
              else if last.key != it.key then Dedup(s + [it]) == done + (buf + [it]) && OneGroup(done, buf + [it])
              else Dedup(s + [it]) == done + buf[|buf| - 1 := it] && OneGroup(done, buf[|buf| - 1 := it])
  {
    hide Dedup, Leq, Ordered, OneGroup;
    DedupSnoc(s, it);
    if buf == [] {
      DedupOne(it);
      Alone(it);
    } else {
      var d, last := Dedup(s), buf[|buf| - 1];
      assert d[|d| - 1] == last;
      GroupLast(s, it);
      ConcatAssoc(done, buf, [it]);
      if last.hash != it.hash {
        NewGroup(done, buf, it);
      } else {
        SameGroup(done, buf, it);
        assert d[..|d| - 1] + [it] == done + buf[|buf| - 1 := it];
      }
    }
  }

  lemma Alone(it: HintItem)
    ensures OneGroup([], [it])
  {
  }

  lemma NewGroup(done: seq<HintItem>, buf: seq<HintItem>, it: HintItem)
    requires OneGroup(done, buf) && buf != [] && buf[|buf| - 1].hash < it.hash
    ensures OneGroup(done + buf, [it])
  {
  }

  lemma SameGroup(done: seq<HintItem>, buf: seq<HintItem>, it: HintItem)
    requires OneGroup(done, buf) && buf != [] && buf[|buf| - 1].hash == it.hash
    ensures OneGroup(done, buf + [it]) && OneGroup(done, buf[|buf| - 1 := it])
  {
  }

  lemma DedupOne(it: HintItem)
    ensures Dedup([] + [it]) == [it]
  {
    DedupSnoc([], it);
    DedupEmpty();
  }

  lemma GroupLast(s: seq<HintItem>, it: HintItem)
    requires Ordered(s + [it]) && Dedup(s) != []
    ensures var d := Dedup(s); d[|d| - 1].hash <= it.hash
  {
    hide Dedup;
    var s' := s + [it];
    assert forall i :: 0 <= i < |s| ==> s'[i] == s[i];
    DedupEmpty();
    DedupNewest(s);
    assert Leq(s'[|s| - 1], s'[|s|]);
    LeqCases(s[|s| - 1], it);
  }

  // ----- the merge

  /** Item j of reader i, with the reader's chunk. */
  function Labelled(src: seq<seq<HintItem>>, chunks: seq<nat>, i: nat, j: nat): HintItem
    requires i < |src| == |chunks| && j < |src[i]|
  {
    src[i][j].(chunk := chunks[i])
  }

  ghost predicate IsInput(src: seq<seq<HintItem>>, chunks: seq<nat>, x: HintItem)
    requires |src| == |chunks|
  {
    exists i: nat, j: nat :: i < |src| && j < |src[i]| && x == Labelled(src, chunks, i, j)
  }

  ghost predicate Readable(src: seq<seq<HintItem>>, chunks: seq<nat>) {
    |src| == |chunks| && forall i :: 0 <= i < |src| ==> src[i] != [] && Sorted(src[i])
  }

  /** Every reader's place in the array, once. */
  ghost predicate Permuted(hp: seq<nat>, n: nat) {
    && |hp| == n && (forall p :: 0 <= p < n ==> hp[p] < n) && (forall i :: 0 <= i < n ==> i in hp)
    && forall p, q :: 0 <= p < q < n ==> hp[p] != hp[q]
  }

  /** The first `live` readers have items left, the others have none. */
  ghost predicate Places(src: seq<seq<HintItem>>, at: seq<nat>, hp: seq<nat>, live: nat) {
    && Permuted(hp, |src|) && |at| == |src| && live <= |src|
    && (forall i :: 0 <= i < |src| ==> at[i] <= |src[i]|)
    && forall p :: 0 <= p < |src| ==> (p < live <==> at[hp[p]] < |src[hp[p]]|)
  }

  /** Nothing handed out comes after what a reader has next. */
  ghost predicate Ahead(s: seq<HintItem>, x: HintItem) {
    forall i :: 0 <= i < |s| ==> Leq(s[i], x)
  }

  ghost predicate AllAhead(src: seq<seq<HintItem>>, chunks: seq<nat>, at: seq<nat>, s: seq<HintItem>)
    requires |src| == |chunks| == |at|
  {
    forall i :: 0 <= i < |src| && at[i] < |src[i]| ==> Ahead(s, Labelled(src, chunks, i, at[i]))
  }

  /** What was handed out are the items the readers are past. */
  ghost predicate Taken(src: seq<seq<HintItem>>, chunks: seq<nat>, at: seq<nat>, s: seq<HintItem>)
    requires |src| == |chunks| == |at|
  {
    && (forall x :: x in s ==> IsInput(src, chunks, x))
    && forall i, j :: 0 <= i < |src| && 0 <= j < at[i] && j < |src[i]| ==> Labelled(src, chunks, i, j) in s
  }

  function Left(src: seq<seq<HintItem>>, at: seq<nat>, n: nat): int
    requires n <= |src| == |at|
  {
    if n == 0 then 0 else Left(src, at, n - 1) + |src[n - 1]| - at[n - 1]
  }

  lemma {:induction false} LeftLess(src: seq<seq<HintItem>>, at: seq<nat>, n: nat, i: nat)
    requires n <= |src| == |at| && i < |src|
    ensures Left(src, at[i := at[i] + 1], n) == if i < n then Left(src, at, n) - 1 else Left(src, at, n)
  {
    if n > 0 {
      LeftLess(src, at, n - 1, i);
    }
  }

  lemma {:induction false} LeftNat(src: seq<seq<HintItem>>, at: seq<nat>, n: nat)
    requires n <= |src| == |at| && forall i :: 0 <= i < n ==> at[i] <= |src[i]|
    ensures Left(src, at, n) >= 0
  {
    if n > 0 {
      LeftNat(src, at, n - 1);
    }
  }

  /** The place of a reader whose next item is not after any other's. Stands for the
      library's heap. */
  method Least(src: seq<seq<HintItem>>, chunks: seq<nat>, at: seq<nat>, hp: seq<nat>, live: nat) returns (p: nat)
    requires |src| == |chunks| && Places(src, at, hp, live) && live > 0
    ensures p < live
    ensures forall q :: 0 <= q < live ==> Leq(Labelled(src, chunks, hp[p], at[hp[p]]),
            Labelled(src, chunks, hp[q], at[hp[q]]))
  {
    hide Earlier;
    p := 0;
    Reflexive(Labelled(src, chunks, hp[p], at[hp[p]]));
    for q := 1 to live
      invariant p < live
      invariant forall r :: 0 <= r < q ==> Leq(Labelled(src, chunks, hp[p], at[hp[p]]),
                Labelled(src, chunks, hp[r], at[hp[r]]))
    {
      var x, y := Labelled(src, chunks, hp[p], at[hp[p]]), Labelled(src, chunks, hp[q], at[hp[q]]);
      EarlierLeq(y, x);
      Reflexive(y);
      if Earlier(y, x) {
        forall r | 0 <= r < q
          ensures Leq(y, Labelled(src, chunks, hp[r], at[hp[r]]))
        {
          LeqTrans(y, x, Labelled(src, chunks, hp[r], at[hp[r]]));
        }
        p := q;
      }
    }
  }

  lemma Reflexive(x: HintItem)
    ensures Leq(x, x)
  {
    LeqCases(x, x);
  }

  lemma EarlierLeq(y: HintItem, x: HintItem)
    ensures Earlier(y, x) ==> Leq(y, x)
  {
    LeqCases(y, x);
    EarlierIs(y, x);
  }

  /** Handing out the least item keeps the order and the account. */
  lemma HandOut(src: seq<seq<HintItem>>, chunks: seq<nat>, at: seq<nat>, hp: seq<nat>, live: nat, s: seq<HintItem>,
                p: nat)
    requires Readable(src, chunks) && Places(src, at, hp, live) && p < live
    requires Ordered(s) && AllAhead(src, chunks, at, s) && Taken(src, chunks, at, s)
    requires forall q :: 0 <= q < live ==> Leq(Labelled(src, chunks, hp[p], at[hp[p]]),
             Labelled(src, chunks, hp[q], at[hp[q]]))
    ensures var i := hp[p]; var x := Labelled(src, chunks, i, at[i]); var at' := at[i := at[i] + 1];
            Ordered(s + [x]) && AllAhead(src, chunks, at', s + [x]) && Taken(src, chunks, at', s + [x])
  {
    hide Leq, Ahead, IsInput, Less;
    var i := hp[p];
    var x, at' := Labelled(src, chunks, i, at[i]), at[i := at[i] + 1];
    OrderedSnoc(s, x);
    forall r | 0 <= r < |src| && at'[r] < |src[r]|
      ensures Ahead(s + [x], Labelled(src, chunks, r, at'[r]))
    {
      var y := Labelled(src, chunks, r, at'[r]);
      if r == i {
        assert Less(src[i][at[i]], src[i][at[i] + 1]);
        LessLabelled(src[i][at[i]], src[i][at[i] + 1], chunks[i]);
      } else {
        var q := HasPlace(src, at, hp, live, r);
        assert Leq(x, Labelled(src, chunks, hp[q], at[hp[q]]));
      }
      AheadSnoc(s, x, y);
    }
    IsAnInput(src, chunks, i, at[i]);
    assert forall z :: z in s + [x] <==> z in s || z == x;
  }

  lemma IsAnInput(src: seq<seq<HintItem>>, chunks: seq<nat>, i: nat, j: nat)
    requires |src| == |chunks| && i < |src| && j < |src[i]|
    ensures IsInput(src, chunks, Labelled(src, chunks, i, j))
  {
  }

  lemma OrderedSnoc(s: seq<HintItem>, x: HintItem)
    requires Ordered(s) && Ahead(s, x)
    ensures Ordered(s + [x])
  {
  }

  lemma AheadSnoc(s: seq<HintItem>, x: HintItem, y: HintItem)
    requires Ahead(s, x) && Leq(x, y)
    ensures Ahead(s + [x], y)
  {
    hide Leq;
    forall i | 0 <= i < |s|
      ensures Leq(s[i], y)
    {
      LeqTrans(s[i], x, y);
    }
  }

  lemma LessLabelled(a: HintItem, b: HintItem, c: nat)
    requires Less(a, b)
    ensures Leq(a.(chunk := c), b.(chunk := c))
  {
    LeqCases(a.(chunk := c), b.(chunk := c));
  }

  /** A reader with items left has a place among the live ones. */
  lemma HasPlace(src: seq<seq<HintItem>>, at: seq<nat>, hp: seq<nat>, live: nat, r: nat) returns (q: nat)
    requires Places(src, at, hp, live) && r < |src| && at[r] < |src[r]|
    ensures q < live && hp[q] == r
  {
    assert r in hp;
    q :| q < |hp| && hp[q] == r;
  }

  /** Moving a reader to the end of the live part, past its item, and back in if it
      has more. */
  lemma Requeue(src: seq<seq<HintItem>>, at: seq<nat>, hp: seq<nat>, live: nat, p: nat)
    requires Places(src, at, hp, live) && p < live
    ensures var i := hp[p]; var hp' := hp[p := hp[live - 1]][live - 1 := i]; var at' := at[i := at[i] + 1];
            && Places(src, at', hp', if at'[i] < |src[i]| then live else live - 1)
            && hp'[live - 1] == i
  {
    var i := hp[p];
    var hp' := hp[p := hp[live - 1]][live - 1 := i];
    forall r | 0 <= r < |hp|
      ensures r in hp'
    {
      assert r in hp;
      var q :| 0 <= q < |hp| && hp[q] == r;
      assert hp'[if q == p then live - 1 else if q == live - 1 then p else q] == r;
    }
  }

  /** The order, the account and the places at the start. */
  lemma AtStart(src: seq<seq<HintItem>>, chunks: seq<nat>, at: seq<nat>, hp: seq<nat>)
    requires Readable(src, chunks) && |at| == |hp| == |src|
    requires forall i :: 0 <= i < |src| ==> at[i] == 0 && hp[i] == i
    ensures Places(src, at, hp, |src|) && Ordered([]) && AllAhead(src, chunks, at, []) && Taken(src, chunks, at, [])
  {
    forall i | 0 <= i < |src|
      ensures i in hp
    {
      assert hp[i] == i;
    }
  }

  /** When all readers are through, everything was handed out. */
  lemma AtEnd(src: seq<seq<HintItem>>, chunks: seq<nat>, at: seq<nat>, hp: seq<nat>, s: seq<HintItem>, x: HintItem)
    requires Readable(src, chunks) && Places(src, at, hp, 0) && Taken(src, chunks, at, s)
    ensures IsInput(src, chunks, x) <==> x in s
  {
    if IsInput(src, chunks, x) {
      var i: nat, j: nat :| i < |src| && j < |src[i]| && x == Labelled(src, chunks, i, j);
      if at[i] < |src[i]| {
        var q := HasPlace(src, at, hp, 0, i);
      }
    }
  }

  /** The newest item of every key of the inputs, in strict order. */
  ghost predicate Merged(src: seq<seq<HintItem>>, chunks: seq<nat>, out: seq<HintItem>)
    requires |src| == |chunks|
  {
    && Sorted(out)
    && (forall x :: x in out ==> IsInput(src, chunks, x))
    && forall x :: IsInput(src, chunks, x) ==> Covered(x, out)
  }

  lemma MergedNow(src: seq<seq<HintItem>>, chunks: seq<nat>, at: seq<nat>, hp: seq<nat>, s: seq<HintItem>)
    requires Readable(src, chunks) && Places(src, at, hp, 0) && Taken(src, chunks, at, s) && Ordered(s)
    ensures Merged(src, chunks, Dedup(s))
  {
    hide IsInput, Covered, Places, Taken, Ordered, Dedup, Sorted;
    DedupNewest(s);
    forall x: HintItem
      ensures IsInput(src, chunks, x) ==> Covered(x, Dedup(s))
      ensures x in Dedup(s) ==> IsInput(src, chunks, x)
    {
      AtEnd(src, chunks, at, hp, s, x);
    }
  }

  /** merge, without an abort or a read error. The readers are closed in the order in
      which the array holds them at the end. */
  method Merge(src: seq<seq<HintItem>>, chunks: seq<nat>, ct: CollisionTable,
               writing: bool) returns (mw: MergeWriter, closed: seq<nat>)
    requires Readable(src, chunks) && TableOk(ct.items)
    modifies ct
    ensures Merged(src, chunks, mw.done) && mw.file == if writing then mw.done else []
    ensures Reported(mw.offered, mw.done) && Tells(ct.items, old(ct.items), mw.offered)
    ensures Permuted(closed, |src|)
  {
    hide Ordered, AllAhead, Taken, Places, Permuted, Readable, WriterOk, TableOk, Tells, Leq, Left, Merged, Dedup,
      Reported;
    ReadableLength(src, chunks);
    var at: seq<nat> := seq(|src|, _ => 0);
    var hp: seq<nat> := seq(|src|, i => i);
    var live: nat := |src|;
    AtStart(src, chunks, at, hp);
    mw := new MergeWriter(writing, ct);
    while live > 0
      invariant mw.Valid() && fresh(mw) && mw.ct == ct && mw.writing == writing && mw.t0 == old(ct.items)
      invariant |at| == |src| && Places(src, at, hp, live)
      invariant AllAhead(src, chunks, at, mw.s) && Taken(src, chunks, at, mw.s)
      decreases Left(src, at, |src|)
    {
      var p := Least(src, chunks, at, hp, live);
      HandOut(src, chunks, at, hp, live, mw.s, p);
      Requeue(src, at, hp, live, p);
      PlaceOk(src, at, hp, live, p);
      LeftLess(src, at, |src|, hp[p]);
      var i := hp[p];
      hp := hp[p := hp[live - 1]][live - 1 := i];
      live := live - 1;
      mw.Write(Labelled(src, chunks, i, at[i]));
      at := at[i := at[i] + 1];
      LeftPlaces(src, at, hp, if at[i] < |src[i]| then live + 1 else live);
      if at[i] < |src[i]| {
        assert hp[live := i] == hp;
        hp := hp[live := i];
        live := live + 1;
      }
    }
    closed := hp;
    PlacesPermuted(src, at, hp, live);
    MergedNow(src, chunks, at, hp, mw.s);
    WrittenOut(mw.s, mw.done, mw.buf, mw.offered);
    mw.Flush();
  }

  lemma ReadableLength(src: seq<seq<HintItem>>, chunks: seq<nat>)
    requires Readable(src, chunks)
    ensures |src| == |chunks|
  {
  }

  lemma PlaceOk(src: seq<seq<HintItem>>, at: seq<nat>, hp: seq<nat>, live: nat, p: nat)
    requires Places(src, at, hp, live) && p < live
    ensures |hp| == |src| && live <= |src| && hp[p] < |src| && |at| == |src| && at[hp[p]] < |src[hp[p]]|
  {
  }

  lemma LeftPlaces(src: seq<seq<HintItem>>, at: seq<nat>, hp: seq<nat>, live: nat)
    requires Places(src, at, hp, live)
    ensures |at| == |src| && Left(src, at, |src|) >= 0
  {
    LeftNat(src, at, |src|);
  }

  lemma PlacesPermuted(src: seq<seq<HintItem>>, at: seq<nat>, hp: seq<nat>, live: nat)
    requires Places(src, at, hp, live)
    ensures Permuted(hp, |src|)
  {
  }

  lemma WrittenOut(s: seq<HintItem>, done: seq<HintItem>, buf: seq<HintItem>, offered: seq<HintItem>)
    requires WriterOk(s, done, buf, offered)
    ensures done + buf == Dedup(s)
  {
  }
}
