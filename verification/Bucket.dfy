/**
  A bucket: writes go to the log, the tree, the index and, for keys known to share
  a hash, the collision table; reads go the other way. Records may be flushed to
  disk between any two operations.
*/
module Bucket {
  import opened Bytes
  import opened Records
  import opened DataStore
  import opened HintItems
  import opened HintMgr
  import opened HintChunk
  import opened Collision
  import opened Leaf
  import opened HTree
  import opened TreeSpec
  import opened Nibbles
  import opened Writes

  // ----- versions

  /** The value a 32-bit signed register keeps. */
  function Wrap(x: int): i32 {
    var y := x % 0x1_0000_0000;
    if y >= 0x8000_0000 then y - 0x1_0000_0000 else y
  }

  function Abs(n: i32): i32 {
    if n < 0 then Wrap(0 - n) else n
  }

  /** checkAndUpdateVerison: the version a write gets, unless it is outdated. */
  function CheckAndUpdateVersion(oldv: i32, ver: i32): (i32, bool) {
    if ver == 0 then
      if oldv >= 0 then (Wrap(oldv + 1), true) else (Wrap(Wrap(0 - oldv) + 1), true)
    else if ver < 0 then (Wrap(Wrap(0 - Abs(oldv)) - 1), true)
    else if Abs(ver) <= Abs(oldv) then (1, false)
    else (ver, true)
  }

  function Magnitude(n: int): nat {
    if n < 0 then -n else n
  }

  /** The new version is further from zero than the old one, and negative exactly for
      a deletion. */
  predicate Advances(oldv: i32, ver: i32, newv: i32) {
    Magnitude(newv) > Magnitude(oldv) && (newv < 0 <==> ver < 0)
  }

  /** The old version leaves room in 32 bits. */
  predicate HasRoom(oldv: i32, ver: i32) {
    if ver == 0 then Magnitude(oldv) < 0x7fff_ffff else oldv > -0x8000_0000
  }

  /** A deletion is never outdated, and gets a negative version exactly if there is room. */
  lemma DeletionAccepted(oldv: i32, ver: i32)
    requires ver < 0
    ensures var (newv, ok) := CheckAndUpdateVersion(oldv, ver); ok && (newv < 0 <==> oldv > -0x8000_0000)
  {
    hide Wrap;
    WrapIs(0 - oldv);
    WrapIs(0 - Abs(oldv));
    WrapIs(Wrap(0 - Abs(oldv)) - 1);
  }

  lemma WrapIs(x: int)
    requires -0x1_0000_0000 <= x <= 0x1_0000_0000
    ensures Wrap(x) == if x >= 0x8000_0000 then x - 0x1_0000_0000 else if x < -0x8000_0000 then x + 0x1_0000_0000 else x
  {
    DivMod(x, if x < 0 then -1 else if x == 0x1_0000_0000 then 1 else 0, 0x1_0000_0000,
           if x < 0 then x + 0x1_0000_0000 else if x == 0x1_0000_0000 then 0 else x);
  }

  /** The version a write is due, were there no bounds: one further from zero than the old
      one, negative for a deletion, unless the client names a positive one. */
  function Due(oldv: i32, ver: i32): int {
    if ver > 0 then ver else if ver == 0 then Magnitude(oldv) + 1 else -(Magnitude(oldv) + 1)
  }

  /** An accepted write gets the version it is due, as a 32-bit number. That is the version
      itself, and advances, exactly if the old one leaves room. */
  lemma VersionAdvances(oldv: i32, ver: i32)
    ensures var (newv, ok) := CheckAndUpdateVersion(oldv, ver);
            ok ==> && (newv - Due(oldv, ver)) % 0x1_0000_0000 == 0
                   && (HasRoom(oldv, ver) || ver > 0 ==> newv == Due(oldv, ver))
                   && (Advances(oldv, ver, newv) <==> HasRoom(oldv, ver))
  {
    hide Wrap;
    WrapIs(0 - oldv);
    WrapIs(oldv + 1);
    WrapIs(Wrap(0 - oldv) + 1);
    WrapIs(0 - Abs(oldv));
    WrapIs(Wrap(0 - Abs(oldv)) - 1);
  }

  /** Exactly the outdated versions are refused: positive ones that do not exceed the old
      magnitude. The one old version whose magnitude does not fit refuses nothing. */
  lemma VersionRefused(oldv: i32, ver: i32)
    ensures CheckAndUpdateVersion(oldv, ver).1 <==> !(0 < ver <= Magnitude(oldv) && oldv > -0x8000_0000)
  {
    hide Wrap;
    WrapIs(0 - oldv);
  }

  // ----- the bucket

  datatype SetResult = Stored | Ignored | NotFound

  /** Other written keys do not share the hash of k. */
  ghost predicate Alone(hash: KeyHash, ws: seq<Write>, k: Key) {
    forall w :: w in ws && hash(w.rec.key) == hash(k) ==> w.rec.key == k
  }

  function RecordOf(w: Option<Write>): Option<Record> {
    if w.Some? then Some(w.value.rec) else None
  }

  function VersionOf(w: Option<Write>): Option<i32> {
    if w.Some? then Some(w.value.rec.ver) else None
  }

  function OldVersion(w: Option<Write>): i32 {
    if w.Some? then w.value.rec.ver else 0
  }

  /** Of two writes of a key the later has the larger version number. */
  ghost predicate VersionsRise(ws: seq<Write>) {
    forall i, j :: 0 <= i < j < |ws| && ws[i].rec.key == ws[j].rec.key ==>
      Magnitude(ws[i].rec.ver) < Magnitude(ws[j].rec.ver)
  }

  lemma {:induction false} RisesToLast(ws: seq<Write>, i: nat)
    requires VersionsRise(ws) && i < |ws|
    ensures KeyLast(ws, ws[i].rec.key).Some?
    ensures Magnitude(ws[i].rec.ver) <= Magnitude(KeyLast(ws, ws[i].rec.key).value.rec.ver)
  {
    hide Magnitude;
    var m := |ws| - 1;
    if ws[m].rec.key != ws[i].rec.key {
      RisesToLast(ws[..m], i);
    }
  }

  lemma RisesOn(ws: seq<Write>, w: Write)
    requires VersionsRise(ws) && Magnitude(OldVersion(KeyLast(ws, w.rec.key))) < Magnitude(w.rec.ver)
    ensures VersionsRise(ws + [w])
  {
    hide Magnitude;
    forall i | 0 <= i < |ws| && ws[i].rec.key == w.rec.key
      ensures Magnitude(ws[i].rec.ver) < Magnitude(w.rec.ver)
    {
      RisesToLast(ws, i);
    }
  }

  /** The version a lookup from memory yields: the key's own if the collision table has
      it, else that of the last write of any key with its hash. */
  function KnownVersion(hash: KeyHash, table: Table, ws: seq<Write>, k: Key): Option<i32> {
    VersionOf(if Filed(table, hash(k), k).Some? then KeyLast(ws, k) else HashLast(hash, ws, hash(k)))
  }

  /** What checkAndSet does to a history, given the version it knows of. */
  ghost predicate SetSpec(known: Option<i32>, ws: seq<Write>, ws': seq<Write>, v: Record, vh: u16, res: SetResult) {
    var oldv := if known.Some? then known.value else 0;
    var (newv, ok) := CheckAndUpdateVersion(oldv, v.ver);
    && (res == Ignored <==> !ok)
    && (res == NotFound <==> ok && newv < 0 && (known.None? || oldv < 0))
    && (res == Stored ==> && |ws'| == |ws| + 1 && ws'[..|ws|] == ws
                          && ws'[|ws|].rec == v.(ver := newv) && ws'[|ws|].vhash == vh)
  }

  /** Where its own version is known, a deletion is stored exactly if the key is live, if and
      only if its version leaves room. */
  lemma DeleteIfLive(ws: seq<Write>, ws': seq<Write>, v: Record, vh: u16, res: SetResult)
    requires SetSpec(VersionOf(KeyLast(ws, v.key)), ws, ws', v, vh, res) && v.ver < 0
    ensures (res == Stored <==> LiveWrite(KeyLast(ws, v.key))) <==> OldVersion(KeyLast(ws, v.key)) > -0x8000_0000
  {
    hide CheckAndUpdateVersion, KeyLast;
    DeletionAccepted(OldVersion(KeyLast(ws, v.key)), v.ver);
  }

  /** Stored versions rise as long as 32 bits suffice. */
  lemma StoredRises(ws: seq<Write>, ws': seq<Write>, v: Record, vh: u16, res: SetResult)
    requires SetSpec(VersionOf(KeyLast(ws, v.key)), ws, ws', v, vh, res) && res == Stored && VersionsRise(ws)
    requires HasRoom(OldVersion(KeyLast(ws, v.key)), v.ver)
    ensures VersionsRise(ws')
  {
    hide CheckAndUpdateVersion, KeyLast, HasRoom, Magnitude, VersionsRise;
    VersionAdvances(OldVersion(KeyLast(ws, v.key)), v.ver);
    RisesOn(ws, ws'[|ws|]);
    assert ws' == ws + [ws'[|ws|]];
  }

  /** The version known of a key is its own: the collision table has the key, or the last
      write of its hash happens to have the version of its own last write. */
  ghost predicate OwnKnown(hash: KeyHash, table: Table, ws: seq<Write>, k: Key) {
    || Filed(table, hash(k), k).Some?
    || VersionOf(HashLast(hash, ws, hash(k))) == VersionOf(KeyLast(ws, k))
  }

  /** A key that has its hash to itself is always known by its own version. */
  lemma AloneIsKnown(hash: KeyHash, table: Table, ws: seq<Write>, k: Key)
    requires Alone(hash, ws, k)
    ensures OwnKnown(hash, table, ws, k)
  {
    hide KeyLast, HashLast;
    if HashLast(hash, ws, hash(k)).Some? {
      HashLastIsKeyLast(hash, ws, hash(k));
    } else if KeyLast(ws, k).Some? {
      KeyHasHash(hash, ws, k);
    }
  }

  predicate LiveWrite(w: Option<Write>) {
    w.Some? && w.value.rec.ver >= 0
  }

  /** Whatever keys share its hash: a deletion is stored exactly if the key is live, if and
      only if the collision table has the key, or the last write of the hash and the key's
      own are both live or both not. A known version without room is always stored over. */
  lemma DeleteExact(hash: KeyHash, table: Table, ws: seq<Write>, ws': seq<Write>, v: Record, vh: u16, res: SetResult)
    requires SetSpec(KnownVersion(hash, table, ws, v.key), ws, ws', v, vh, res) && v.ver < 0
    ensures (res == Stored <==> LiveWrite(KeyLast(ws, v.key))) <==>
            if KnownVersion(hash, table, ws, v.key) == Some(-0x8000_0000) then LiveWrite(KeyLast(ws, v.key))
            else (|| Filed(table, hash(v.key), v.key).Some?
                  || (LiveWrite(HashLast(hash, ws, hash(v.key))) <==> LiveWrite(KeyLast(ws, v.key))))
  {
    hide CheckAndUpdateVersion, KeyLast, HashLast, Filed;
    var known := KnownVersion(hash, table, ws, v.key);
    DeletionAccepted(if known.Some? then known.value else 0, v.ver);
  }

  /** An instance where neither holds: a deletion of a key that was never written is stored
      because a key with its hash is live. */
  lemma StrangerDeleted(hash: KeyHash, a: Write, v: Record, vh: u16, ws': seq<Write>, res: SetResult)
    requires a.rec.ver > 0 && v.ver < 0 && v.key != a.rec.key && hash(v.key) == hash(a.rec.key)
    requires SetSpec(KnownVersion(hash, map[], [a], v.key), [a], ws', v, vh, res)
    ensures KeyLast([a], v.key) == None && res == Stored && !OwnKnown(hash, map[], [a], v.key)
  {
    hide CheckAndUpdateVersion;
    assert [a][..0] == [];
    assert KnownVersion(hash, map[], [a], v.key) == Some(a.rec.ver);
    DeletionAccepted(a.rec.ver, v.ver);
  }

  /** The log, index and collision table of a history. */
  ghost predicate Consistent(hash: KeyHash, data: State, logs: seq<seq<HintItem>>, table: Table, ws: seq<Write>) {
    && LogInv(data) && AllInLog(data, ws) && Rising(ws)
    && |logs| == MAX_NUM_CHUNK && (forall c :: 0 <= c < |logs| ==> logs[c] == HintsOf(hash, ws, c))
    && TableOk(table) && TableAgrees(hash, table, ws)
  }

  ghost predicate AppliedAppend(data: State, data': State, rec: Record) {
    Enabled(data, Append(rec)) && data' == Apply(data, Append(rec))
  }

  class Bucket {
    const hash: KeyHash
    const vhash: Record -> u16  // the value hash that get computes for a record
    const tree: Tree
    const hints: HintMgr
    const ct: CollisionTable
    var data: State
    ghost var writes: seq<Write>

    ghost predicate Valid()
      reads this, tree, ct, hints, hints.Repr
    {
      && |hints.chunks| == MAX_NUM_CHUNK && tree !in hints.Repr && ct !in hints.Repr && this !in hints.Repr
      && tree.Valid() && hints.Valid()
      && (forall h: u64 :: tree.Find(h) == TreeEntry(hash, writes, h))
      && Consistent(hash, data, hints.logs, ct.items, writes) && Routed(hash, tree.bp, writes)
    }

    /** An empty bucket. */
    constructor (hash: KeyHash, vhash: Record -> u16, sh: Shape, bp: seq<nat>, splitCap: nat)
      requires sh.Legal() && IsPath(bp) && |bp| == sh.depth && splitCap > 0
      ensures Valid() && writes == [] && this.hash == hash && tree.sh == sh && tree.bp == bp
      ensures fresh(tree) && fresh(ct) && fresh(hints.Repr) && data.newHead == 0
      ensures forall c :: 0 <= c < |hints.chunks| ==> hints.chunks[c].splitCap == splitCap
    {
      hide LeavesOk, NodesOk, Sized, FindIn, Consistent;
      this.hash, this.vhash := hash, vhash;
      tree := new Tree(sh, bp);
      hints := new HintMgr(MAX_NUM_CHUNK, splitCap);
      ct := new CollisionTable();
      data := EmptyStore();
      writes := [];
      new;
      EmptyConsistent(hash, hints.logs);
    }

    /** The flusher takes a step. */
    method Flush(step: Step)
      requires Valid() && !step.Append? && Enabled(data, step)
      modifies this`data
      ensures Valid() && writes == old(writes) && data == Apply(old(data), step)
    {
      hide TreeOk, LogInv, Enabled, Apply, InLog;
      FlushKeeps(hash, data, step, hints.logs, ct.items, writes);
      data := Apply(data, step);
    }

    /** get, from memory only: the version of the key, or of another key with its hash. */
    method GetMeta(k: Key) returns (ver: Option<i32>)
      requires Valid() && tree.Mine(hash(k))
      ensures ver == KnownVersion(hash, ct.items, writes, k)
      ensures ver == VersionOf(KeyLast(writes, k)) <==> OwnKnown(hash, ct.items, writes, k)
      ensures Alone(hash, writes, k) ==> OwnKnown(hash, ct.items, writes, k)
    {
      hide TreeOk, LogInv, AllInLog, Rising, HintsOf, KeyLast, HashLast, TableAgrees;
      KnownTable(hash, ct.items, writes, k);
      if Alone(hash, writes, k) {
        AloneIsKnown(hash, ct.items, writes, k);
      }
      var hintit, _ := ct.Get(hash(k), k);
      if hintit == None {
        var item, found := tree.Get(hash(k));
        if !found {
          return None;
        }
        return Some(item.ver);
      } else {
        return Some(hintit.value.ver);
      }
    }

    /** get: the record last written for the key, whether the tree, the collision table
        or only the index knows its place. Looking for it never fails. */
    method Get(k: Key) returns (rec: Option<Record>, failed: bool)
      requires Valid() && tree.Mine(hash(k))
      modifies ct
      ensures Valid() && !failed && rec == RecordOf(KeyLast(writes, k))
      ensures rec.Some? ==> OwnKnown(hash, ct.items, writes, k)
      ensures rec.None? ==> ct.items == old(ct.items)
    {
      hide LeavesOk, NodesOk, Sized, FindIn, Consistent, HashLast, HasPrefix, Read, KeyLast, HintMgr.Valid;
      Known(hash, data, hints.logs, ct.items, writes, k);
      var hintit, _ := ct.Get(hash(k), k);
      var chunk: nat, offset: nat, ver: i32 := 0, 0, 0;
      ghost var w: Write;
      if hintit == None {
        var item, found := tree.Get(hash(k));
        if !found {
          return None, false;
        }
        chunk, offset, ver := item.chunk, item.offset, item.ver;
        w := HashLast(hash, writes, hash(k)).value;
      } else {
        chunk, offset, ver := hintit.value.chunk, hintit.value.offset, hintit.value.ver;
        w := KeyLast(writes, k).value;
      }
      ReadBack(hash, data, hints.logs, ct.items, writes, w);
      var r := Read(data.chunks[chunk], data.chunks[chunk], offset);
      if r == None {
        return None, true;
      } else if r.value.key == k {
        return Some(r.value.(ver := ver)), false;
      }
      if hash(r.value.key) != hash(k) {
        return None, true;
      }
      rec, failed := GetByIndex(k, chunk, offset, r.value, w);
    }

    /** The rest of get, for a key whose hash leads to the record of another key. */
    method GetByIndex(k: Key, chunk: nat, offset: u32, other: Record, ghost w: Write) returns (rec: Option<Record>,
      failed: bool)
      requires Valid() && hash(other.key) == hash(k)
      requires KeyLast(writes, other.key) == Some(w) && w.rec == other && w.chunk == chunk && w.offset == offset
      modifies ct
      ensures Valid() && !failed && rec == RecordOf(KeyLast(writes, k))
      ensures rec.Some? ==> Filed(ct.items, hash(k), k).Some? && Filed(ct.items, hash(k), other.key).Some?
      ensures rec.None? ==> ct.items == old(ct.items)
    {
      hide LeavesOk, NodesOk, Sized, FindIn, Consistent, TableOk, Read, KeyLast, TreeEntry, Filed, HintMgr.Valid, Last;
      TableIsOk(hash, data, hints.logs, ct.items, writes);
      var it, c := hints.GetItem(hash(k), k);
      Indexed(hash, data, hints.logs, ct.items, writes, k, it, c);
      if it == None {
        return None, false;
      }
      ghost var w2, t0 := KeyLast(writes, k).value, ct.items;
      var inTree := HintItem(hash(k), chunk, offset, other.ver, vhash(other), other.key);
      ct.CompareAndSet(inTree, false);
      TableLearns(hash, data, hints.logs, t0, ct.items, writes, inTree, w);
      ghost var t1 := ct.items;
      var notInTree := it.value.(chunk := c);
      ct.CompareAndSet(notInTree, false);
      TableLearns(hash, data, hints.logs, t1, ct.items, writes, notInTree, w2);
      ReadBack(hash, data, hints.logs, ct.items, writes, w2);
      var r := Read(data.chunks[c], data.chunks[c], it.value.offset);
      if r == None {
        return None, true;
      }
      return r, false;
    }

    /** The collision table learns about a write if it knows the hash. */
    method TellTable(it: HintItem)
      requires TableOk(ct.items)
      modifies ct
      ensures TableOk(ct.items) && TableTold(old(ct.items), ct.items, it)
    {
      hide TableOk, Filed;
      var _, known := ct.Get(it.hash, it.key);
      if known {
        ct.CompareAndSet(it, false);
      }
    }

    /** set: the record is appended and every part told about it. */
    method Set(rec: Record, vhash: u16, recSize: u32, junk: seq<byte>)
      requires Valid() && tree.Mine(hash(rec.key)) && Enabled(data, Append(rec))
      requires |junk| == tree.sh.KHashLen() + ITEM_SIZE
      modifies this`data, this`writes, tree, ct, hints.Repr
      ensures Valid() && fresh(hints.Repr - old(hints.Repr))
      ensures |writes| == |old(writes)| + 1 && writes[..|old(writes)|] == old(writes)
      ensures writes[|old(writes)|].rec == rec && writes[|old(writes)|].vhash == vhash
      ensures data == Apply(old(data), Append(rec))
      ensures var w := writes[|old(writes)|];
              && w.chunk < |hints.chunks| && hints.chunks[w.chunk].Valid()
              && hints.chunks[w.chunk].Covered() >= (w.offset + recSize) % 0x1_0000_0000
    {
      hide LeavesOk, NodesOk, Sized, FindIn, Consistent, Enabled, Apply, HashLast, TableOk, HasPrefix, TableTold,
        TreeEntry, AppendTarget, HintMgr.Valid, Routed, Storable, HintChunk.Valid, HintChunk.Covered, HintChunk.Full;
      ghost var data0, logs0, table0, writes0 := data, hints.logs, ct.items, writes;
      TableIsOk(hash, data, hints.logs, ct.items, writes);
      var p := AppendTarget(data, rec);
      Appending(hash, data, hints.logs, ct.items, writes, rec, vhash);
      AppendStorable(data, rec);
      ghost var w := Write(rec, vhash, p.chunk, p.offset);
      data := Apply(data, Append(rec));
      tree.Set(hash(rec.key), Item(rec.ver, vhash, p.chunk, p.offset), junk);
      var it := HintItem(hash(rec.key), 0, p.offset, rec.ver, vhash, rec.key);
      TellTable(it.(chunk := p.chunk));
      writes := writes + [w];
      var _ := hints.SetItem(it, p.chunk, recSize);
      WriteKeeps(hash, data0, logs0, table0, ct.items, writes0, w);
      TreeKeeps(hash, writes0, w);
      RoutedNext(hash, tree.bp, writes0, w);
    }

    /** checkAndSet, without the shortcut for equal value hashes. */
    method CheckAndSet(v: Record, vh: u16, recSize: u32, junk: seq<byte>) returns (res: SetResult)
      requires Valid() && tree.Mine(hash(v.key)) && Enabled(data, Append(v))
      requires |junk| == tree.sh.KHashLen() + ITEM_SIZE
      modifies this`data, this`writes, tree, ct, hints.Repr
      ensures Valid() && fresh(hints.Repr - old(hints.Repr))
      ensures res != Stored ==> writes == old(writes) && data == old(data)
      ensures res == Stored ==> writes != [] && AppliedAppend(old(data), data, writes[|writes| - 1].rec)
      ensures SetSpec(old(KnownVersion(hash, ct.items, writes, v.key)), old(writes), writes, v, vh, res)
      ensures old(KnownVersion(hash, ct.items, writes, v.key) == VersionOf(KeyLast(writes, v.key))) <==>
              old(OwnKnown(hash, ct.items, writes, v.key))
      ensures old(Alone(hash, writes, v.key)) ==> old(OwnKnown(hash, ct.items, writes, v.key))
    {
      hide LeavesOk, NodesOk, Sized, FindIn, Consistent, Enabled, HasPrefix, KnownVersion, OwnKnown, HintMgr.Valid,
        Alone, CheckAndUpdateVersion, TreeEntry;
      var known := GetMeta(v.key);
      var oldv := if known.Some? then known.value else 0;
      var (ver, ok) := CheckAndUpdateVersion(oldv, v.ver);
      if !ok {
        return Ignored;
      }
      if ver < 0 && (known == None || oldv < 0) {
        return NotFound;
      }
      SameRoom(data, v, ver);
      Set(v.(ver := ver), vh, recSize, junk);
      return Stored;
    }
  }

  /** What get relies on at a place the tree or the table names. */
  lemma ReadBack(hash: KeyHash, data: State, logs: seq<seq<HintItem>>, table: Table, ws: seq<Write>, w: Write)
    requires Consistent(hash, data, logs, table, ws) && w in ws
    ensures w.chunk < |data.chunks| && Read(data.chunks[w.chunk], data.chunks[w.chunk], w.offset) == Some(w.rec)
  {
    hide LogInv, InLog, Read, TableAgrees, TableOk, HintsOf, Rising;
    var i :| 0 <= i < |ws| && ws[i] == w;
    assert InLog(data, ws[i]);
    LogHas(data, w);
    ReadNow(data, w);
  }

  lemma LogHas(data: State, w: Write)
    requires InLog(data, w)
    ensures w.chunk < |data.chunks|
  {
  }

  /** What the table, the tree and the index know of a key. */
  lemma Known(hash: KeyHash, data: State, logs: seq<seq<HintItem>>, table: Table, ws: seq<Write>, k: Key)
    requires Consistent(hash, data, logs, table, ws)
    ensures var f := Filed(table, hash(k), k); f.Some? ==> KeyLast(ws, k).Some? && Agrees(f.value, KeyLast(ws, k).value)
    ensures HashLast(hash, ws, hash(k)).None? ==> KeyLast(ws, k).None?
    ensures HashLast(hash, ws, hash(k)).Some? ==>
              var w := HashLast(hash, ws, hash(k)).value; KeyLast(ws, w.rec.key) == Some(w)
  {
    hide LogInv, AllInLog, TableOk, HintsOf, Rising;
    if HashLast(hash, ws, hash(k)).Some? {
      HashLastIsKeyLast(hash, ws, hash(k));
    } else if KeyLast(ws, k).Some? {
      KeyHasHash(hash, ws, k);
    }
  }

  lemma Indexed(hash: KeyHash, data: State, logs: seq<seq<HintItem>>, table: Table, ws: seq<Write>, k: Key,
                it: Option<HintItem>, c: nat)
    requires Consistent(hash, data, logs, table, ws)
    requires it.Some? ==> c < |logs| && Last(logs[c], hash(k), k) == it
    requires forall i :: (if it.Some? then c < i else 0 <= i) && i < |logs| ==> Last(logs[i], hash(k), k).None?
    ensures match KeyLast(ws, k)
            case Some(w) => it == Some(HintOf(hash, w)) && c == w.chunk
            case None => it == None
  {
    hide LogInv, InLog, TableOk, TableAgrees, HintsOf, Last;
    if KeyLast(ws, k).Some? {
      var w := KeyLast(ws, k).value;
      InSomeChunk(data, ws, w);
      IndexLast(hash, ws, k, w.chunk);
    }
    if it.Some? {
      IndexLast(hash, ws, k, c);
    }
  }

  lemma InSomeChunk(data: State, ws: seq<Write>, w: Write)
    requires LogInv(data) && AllInLog(data, ws) && w in ws
    ensures w.chunk < MAX_NUM_CHUNK
  {
    hide EncodeAll, ChunkOk, DiskOk, FlusherOk;
    var i :| 0 <= i < |ws| && ws[i] == w;
    assert InLog(data, ws[i]);
  }

  /** Telling the table about last writes keeps it right. */
  lemma TableLearns(hash: KeyHash, data: State, logs: seq<seq<HintItem>>, table: Table, table': Table,
                    ws: seq<Write>, it: HintItem, w: Write)
    requires Consistent(hash, data, logs, table, ws) && TableOk(table')
    requires KeyLast(ws, it.key) == Some(w) && Agrees(it, w) && it.hash == hash(it.key)
    requires Filed(table', it.hash, it.key) == Some(Newer(Filed(table, it.hash, it.key), it))
    requires forall h, k :: !Is(it, h, k) ==> Filed(table', h, k) == Filed(table, h, k)
    ensures Consistent(hash, data, logs, table', ws)
  {
    hide LogInv, AllInLog, TableOk, HintsOf, Rising, KeyLast;
    forall h, k | Filed(table', h, k).Some?
      ensures hash(k) == h && KeyLast(ws, k).Some? && Agrees(Filed(table', h, k).value, KeyLast(ws, k).value)
    {
    }
  }

  lemma FlushKeeps(hash: KeyHash, data: State, step: Step, logs: seq<seq<HintItem>>, table: Table, ws: seq<Write>)
    requires Consistent(hash, data, logs, table, ws) && Enabled(data, step)
    ensures Consistent(hash, Apply(data, step), logs, table, ws)
  {
    hide LogInv, Enabled, Apply, InLog, TableOk, TableAgrees, Rising, HintsOf;
    StepKeeps(data, step);
    forall i | 0 <= i < |ws|
      ensures InLog(Apply(data, step), ws[i])
    {
      StillInLog(data, step, ws[i]);
    }
  }

  lemma KnownTable(hash: KeyHash, table: Table, ws: seq<Write>, k: Key)
    requires TableAgrees(hash, table, ws)
    ensures var f := Filed(table, hash(k), k);
            f.Some? ==> KeyLast(ws, k).Some? && f.value.ver == KeyLast(ws, k).value.rec.ver
  {
  }

  /** What an append leaves to be done. */
  lemma Appending(hash: KeyHash, data: State, logs: seq<seq<HintItem>>, table: Table, ws: seq<Write>, rec: Record,
                  vhash: u16)
    requires Consistent(hash, data, logs, table, ws) && Enabled(data, Append(rec))
    ensures var p := AppendTarget(data, rec);
            p.offset < 0x1_0000_0000 && p.offset % 256 == 0 && 0 <= p.chunk < MAX_NUM_CHUNK
  {
    hide LogInv, Enabled, AllInLog, Rising, HintsOf, TableAgrees, TableOk;
    Appended(data, rec, Write(rec, vhash, 0, 0));
  }

  lemma RoutedNext(hash: KeyHash, bp: seq<nat>, ws: seq<Write>, w: Write)
    requires Routed(hash, bp, ws) && HasPrefix(hash(w.rec.key), bp) && Storable(w.rec) && w.offset % 256 == 0
    ensures Routed(hash, bp, ws + [w])
  {
    hide HasPrefix;
  }

  lemma AppendStorable(data: State, rec: Record)
    requires Enabled(data, Append(rec))
    ensures Storable(rec)
  {
  }

  /** The version of a record does not matter to the log. */
  lemma SameRoom(data: State, v: Record, ver: i32)
    requires Enabled(data, Append(v))
    ensures Enabled(data, Append(v.(ver := ver)))
  {
  }

  lemma TableIsOk(hash: KeyHash, data: State, logs: seq<seq<HintItem>>, table: Table, ws: seq<Write>)
    requires Consistent(hash, data, logs, table, ws)
    ensures TableOk(table) && |logs| == MAX_NUM_CHUNK && data.newHead < |data.chunks|
  {
  }

  lemma TreeKeeps(hash: KeyHash, ws: seq<Write>, w: Write)
    ensures forall h: u64 :: TreeEntry(hash, ws + [w], h) == if h ==
            hash(w.rec.key) then Some(EntryOf(w)) else TreeEntry(hash, ws, h)
  {
    hide HashLast;
    forall h: u64
      ensures TreeEntry(hash, ws + [w], h) == if h == hash(w.rec.key) then Some(EntryOf(w)) else TreeEntry(hash, ws, h)
    {
      HashLastSnoc(hash, ws, w, h);
    }
  }

  /** How set leaves the collision table. */
  ghost predicate TableTold(table: Table, table': Table, it: HintItem) {
    if it.hash in table then
      && Filed(table', it.hash, it.key) == Some(Newer(Filed(table, it.hash, it.key), it))
      && forall h, k :: !Is(it, h, k) ==> Filed(table', h, k) == Filed(table, h, k)
    else table' == table
  }

  lemma WriteKeeps(hash: KeyHash, data: State, logs: seq<seq<HintItem>>, table: Table, table': Table, ws: seq<Write>,
                   w: Write)
    requires Consistent(hash, data, logs, table, ws) && Enabled(data, Append(w.rec)) && TableOk(table')
    requires var p := AppendTarget(data, w.rec); w.chunk == p.chunk && w.offset == p.offset
    requires TableTold(table, table', HintOf(hash, w).(chunk := w.chunk))
    ensures w.chunk < |logs|
    ensures Consistent(hash, Apply(data, Append(w.rec)), logs[w.chunk := logs[w.chunk] + [HintOf(hash, w)]], table',
            ws + [w])
  {
    hide LogInv, Enabled, Apply, InLog, TableOk, TableAgrees, TableTold, HintsOf, AppendTarget;
    LogKeeps(data, ws, w);
    TableKeeps(hash, table, table', ws, w);
    forall c | 0 <= c < |logs|
      ensures logs[w.chunk := logs[w.chunk] + [HintOf(hash, w)]][c] == HintsOf(hash, ws + [w], c)
    {
      HintsSnoc(hash, ws, w, c);
    }
  }

  lemma LogKeeps(data: State, ws: seq<Write>, w: Write)
    requires LogInv(data) && Enabled(data, Append(w.rec)) && AllInLog(data, ws) && Rising(ws)
    requires var p := AppendTarget(data, w.rec); w.chunk == p.chunk && w.offset == p.offset
    ensures LogInv(Apply(data, Append(w.rec))) && AllInLog(Apply(data, Append(w.rec)), ws + [w]) && Rising(ws + [w])
    ensures w.chunk < MAX_NUM_CHUNK && forall i :: 0 <= i < |ws| ==> Pos(ws[i]) < Pos(w)
  {
    hide LogInv, Enabled, Apply, InLog, AppendTarget;
    StepKeeps(data, Append(w.rec));
    AppendInLog(data, w.rec, w.vhash);
    Appended(data, w.rec, w);
    forall i | 0 <= i < |ws|
      ensures InLog(Apply(data, Append(w.rec)), ws[i]) && Pos(ws[i]) < Pos(w)
    {
      StillInLog(data, Append(w.rec), ws[i]);
      Appended(data, w.rec, ws[i]);
    }
  }

  lemma TableKeeps(hash: KeyHash, table: Table, table': Table, ws: seq<Write>, w: Write)
    requires TableAgrees(hash, table, ws) && TableTold(table, table', HintOf(hash, w).(chunk := w.chunk))
    requires forall i :: 0 <= i < |ws| ==> Pos(ws[i]) < Pos(w)
    ensures TableAgrees(hash, table', ws + [w])
  {
    hide KeyLast;
    forall h, k | Filed(table', h, k).Some?
      ensures hash(k) == h && KeyLast(ws + [w], k).Some? && Agrees(Filed(table', h, k).value,
              KeyLast(ws + [w], k).value)
    {
      KeyLastSnoc(ws, w, k);
    }
  }

  function EmptyStore(): State {
    State(seq(MAX_NUM_CHUNK, _ => Chunk([], [], 0, 0, [])), 0, 0, Idle)
  }

  lemma EmptyConsistent(hash: KeyHash, logs: seq<seq<HintItem>>)
    requires |logs| == MAX_NUM_CHUNK && forall c :: 0 <= c < |logs| ==> logs[c] == []
    ensures Consistent(hash, EmptyStore(), logs, map[], [])
    ensures forall h: u64 :: TreeEntry(hash, [], h) == None
  {
    hide LogInv;
    EmptyLog();
    assert EncodeAll([]) == [];
    InitKeeps(EmptyStore());
  }
}
