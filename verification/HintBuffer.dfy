/**
  A split of the index in memory: the last item of every key written to it, found
  by key hash through an index and, for keys whose hashes collide, through a
  table per hash.
*/
module HintBuffer {
  import opened Bytes
  import opened HintItems

  // ----- the tables, over values

  type Index = map<u64, nat>
  type Collisions = map<u64, map<Key, nat>>

  /** A hash gets a table with one key. */
  function Opened(coll: Collisions, h: u64, k: Key, i: nat): Collisions {
    var keys: map<Key, nat> := map[k := i];
    coll[h := keys]
  }

  /** A key enters its hash's table. */
  function Entered(coll: Collisions, h: u64, k: Key, i: nat): Collisions
    requires h in coll
  {
    var keys: map<Key, nat> := coll[h][k := i];
    coll[h := keys]
  }

  ghost predicate IndexOk(index: Index, items: seq<HintItem>) {
    && (forall h :: h in index ==> index[h] < |items| && items[index[h]].hash == h)
    && (forall i :: 0 <= i < |items| ==> items[i].hash in index)
  }

  /** Whether position i is what the tables lead to for its own key. */
  ghost predicate Reached(index: Index, coll: Collisions, items: seq<HintItem>, i: nat)
    requires i < |items|
  {
    var it := items[i];
    if it.hash in coll then it.key in coll[it.hash] && coll[it.hash][it.key] == i
    else it.hash in index && index[it.hash] == i
  }

  ghost predicate CollisionsOk(coll: Collisions, items: seq<HintItem>) {
    forall h, k :: h in coll && k in coll[h] ==> coll[h][k] < |items| && Is(items[coll[h][k]], h, k)
  }

  ghost predicate TablesOk(index: Index, coll: Collisions, items: seq<HintItem>) {
    && IndexOk(index, items) && CollisionsOk(coll, items) && (forall h :: h in coll ==> h in index)
    && forall i :: 0 <= i < |items| ==> Reached(index, coll, items, i)
  }

  /** The position the tables lead to for a key. */
  function Locate(index: Index, coll: Collisions, items: seq<HintItem>, h: u64, k: Key): (r: Option<nat>)
    requires forall x :: x in index ==> index[x] < |items|
  {
    if h !in index then None
    else if items[index[h]].key == k then Some(index[h])
    else if h in coll && k in coll[h] then Some(coll[h][k])
    else None
  }

  /** The tables lead to the one position that holds the key. */
  lemma Located(index: Index, coll: Collisions, items: seq<HintItem>, h: u64, k: Key)
    requires TablesOk(index, coll, items)
    ensures match Locate(index, coll, items, h, k)
            case Some(i) =>
              && i < |items| && Is(items[i], h, k)
              && forall j :: 0 <= j < |items| && Is(items[j], h, k) ==> j == i
            case None => forall j :: 0 <= j < |items| ==> !Is(items[j], h, k)
  {
    forall j | 0 <= j < |items| && Is(items[j], h, k)
      ensures Locate(index, coll, items, h, k) == Some(j)
    {
      assert Reached(index, coll, items, j);
      if items[index[h]].key == k {
        assert Reached(index, coll, items, index[h]);
      }
    }
  }

  /** What a reader of the tables may rely on. */
  lemma InRange(index: Index, coll: Collisions, items: seq<HintItem>)
    requires TablesOk(index, coll, items)
    ensures forall h :: h in index ==> index[h] < |items| && items[index[h]].hash == h
    ensures forall h :: h in coll ==> h in index
    ensures |index| == 0 <==> items == []
  {
    if items != [] {
      assert items[0].hash in index;
    }
  }

  lemma OneKey(coll: Collisions, h: u64, k: Key, i: nat)
    ensures h in Opened(coll, h, k, i) && forall x :: x != k ==> x !in Opened(coll, h, k, i)[h]
  {
  }

  /** The items are the last of each key in a run of writes. */
  ghost predicate Mirrors(items: seq<HintItem>, run: seq<HintItem>) {
    && (forall i :: 0 <= i < |items| ==> Last(run, items[i].hash, items[i].key) == Some(items[i]))
    && (forall it :: it in run ==> Last(run, it.hash, it.key).Some? && Last(run, it.hash, it.key).value in items)
  }

  lemma MirrorLookup(items: seq<HintItem>, run: seq<HintItem>, h: u64, k: Key, at: Option<nat>)
    requires Mirrors(items, run)
    requires match at
             case Some(i) => i < |items| && Is(items[i], h, k)
             case None => forall j :: 0 <= j < |items| ==> !Is(items[j], h, k)
    ensures Last(run, h, k) == if at.Some? then Some(items[at.value]) else None
  {
  }

  /** No position but i holds the item's key. */
  ghost predicate OnlyAt(items: seq<HintItem>, it: HintItem, i: nat) {
    forall j :: 0 <= j < |items| && SameId(items[j], it) ==> j == i
  }

  lemma MirrorLast(items: seq<HintItem>, run: seq<HintItem>, it: HintItem, found: bool, i: nat)
    requires Mirrors(items, run)
    requires found ==> i < |items| && SameId(items[i], it)
    requires !found ==> OnlyAt(items, it, |items|)
    ensures Last(run, it.hash, it.key).Some? <==> found
  {
  }

  lemma MirrorReplace(items: seq<HintItem>, run: seq<HintItem>, it: HintItem, i: nat)
    requires Mirrors(items, run) && i < |items| && SameId(items[i], it)
    requires OnlyAt(items, it, i)
    ensures Mirrors(items[i := it], run + [it])
  {
    hide Last;
    var items', run' := items[i := it], run + [it];
    forall j | 0 <= j < |items'|
      ensures Last(run', items'[j].hash, items'[j].key) == Some(items'[j])
    {
      LastSnoc(run, it, items'[j].hash, items'[j].key);
    }
    forall x | x in run'
      ensures Last(run', x.hash, x.key).Some? && Last(run', x.hash, x.key).value in items'
    {
      LastSnoc(run, it, x.hash, x.key);
      assert items'[i] == it;
      if !SameId(x, it) {
        var y := Last(run, x.hash, x.key).value;
        var j :| 0 <= j < |items| && items[j] == y;
        assert items'[j] == y;
      }
    }
  }

  lemma MirrorAdd(items: seq<HintItem>, run: seq<HintItem>, it: HintItem)
    requires Mirrors(items, run) && OnlyAt(items, it, |items|)
    ensures Mirrors(items + [it], run + [it])
  {
    hide Last;
    var items', run' := items + [it], run + [it];
    forall j | 0 <= j < |items'|
      ensures Last(run', items'[j].hash, items'[j].key) == Some(items'[j])
    {
      LastSnoc(run, it, items'[j].hash, items'[j].key);
    }
    forall x | x in run'
      ensures Last(run', x.hash, x.key).Some? && Last(run', x.hash, x.key).value in items'
    {
      LastSnoc(run, it, x.hash, x.key);
    }
  }

  /** The index leads to the last item written under each hash. */
  ghost predicate Indexes(index: Index, items: seq<HintItem>, run: seq<HintItem>) {
    forall h: u64 ::
      LastHash(run, h) == if h in index && index[h] < |items| then Some(items[index[h]]) else None
  }

  lemma IndexesNext(index: Index, items: seq<HintItem>, run: seq<HintItem>, it: HintItem, i: nat, items': seq<HintItem>)
    requires Indexes(index, items, run) && IndexOk(index, items)
    requires (i < |items| && items[i].hash == it.hash && items' == items[i := it])
             || (i == |items| && items' == items + [it])
    requires forall h :: h in index && h != it.hash ==> index[h] != i
    ensures Indexes(index[it.hash := i], items', run + [it])
  {
    hide LastHash;
    forall h: u64
      ensures LastHash(run + [it], h) ==
              var index' := index[it.hash := i]; if h in index'
                && index'[h] < |items'| then Some(items'[index'[h]]) else None
    {
      LastHashSnoc(run, it, h);
      assert LastHash(run, h) == if h in index && index[h] < |items| then Some(items[index[h]]) else None;
    }
  }

  // ----- updates of the tables

  /** Writing over the position a key already has. */
  lemma TablesReplace(index: Index, coll: Collisions, items: seq<HintItem>, it: HintItem, i: nat, coll': Collisions)
    requires TablesOk(index, coll, items) && i < |items| && SameId(items[i], it)
    requires coll' == coll || (it.hash in coll && coll' == Entered(coll, it.hash, it.key, i))
    ensures TablesOk(index[it.hash := i], coll', items[i := it])
  {
    assert Reached(index, coll, items, i);
    var index', items' := index[it.hash := i], items[i := it];
    forall j | 0 <= j < |items'|
      ensures Reached(index', coll', items', j)
    {
      assert Reached(index, coll, items, j);
    }
  }

  /** A new key under a hash the index does not have. */
  lemma TablesAddFirst(index: Index, coll: Collisions, items: seq<HintItem>, it: HintItem)
    requires TablesOk(index, coll, items) && it.hash !in index && it.hash !in coll
    ensures TablesOk(index[it.hash := |items|], coll, items + [it])
  {
    var index', items' := index[it.hash := |items|], items + [it];
    forall j | 0 <= j < |items'|
      ensures Reached(index', coll, items', j)
    {
      if j < |items| {
        assert Reached(index, coll, items, j);
      }
    }
  }

  /** A new key under a hash that other keys have. */
  lemma TablesAddOther(index: Index, coll: Collisions, items: seq<HintItem>, it: HintItem)
    requires TablesOk(index, coll, items) && it.hash in coll && it.key !in coll[it.hash]
    ensures TablesOk(index[it.hash := |items|], Entered(coll, it.hash, it.key, |items|), items + [it])
  {
    var index', items', n := index[it.hash := |items|], items + [it], |items|;
    var coll' := Entered(coll, it.hash, it.key, n);
    forall j | 0 <= j < |items'|
      ensures Reached(index', coll', items', j)
    {
      if j < |items| {
        assert Reached(index, coll, items, j);
        assert items'[j] == items[j];
      }
    }
  }

  /** The first collision under a hash gives it a table. */
  lemma TablesOpen(index: Index, coll: Collisions, items: seq<HintItem>, h: u64)
    requires TablesOk(index, coll, items) && h in index && h !in coll
    ensures TablesOk(index, Opened(coll, h, items[index[h]].key, index[h]), items)
  {
    var coll' := Opened(coll, h, items[index[h]].key, index[h]);
    forall j | 0 <= j < |items|
      ensures Reached(index, coll', items, j)
    {
      assert Reached(index, coll, items, j);
    }
  }

  lemma IndexesStored(index: Index, coll: Collisions, items: seq<HintItem>, run: seq<HintItem>, it: HintItem, i: nat)
    requires TablesOk(index, coll, items) && Indexes(index, items, run)
    requires i == |items| || (i < |items| && SameId(items[i], it))
    ensures Indexes(index[it.hash := i], if i == |items| then items + [it] else items[i := it], run + [it])
  {
    hide Indexes;
    IndexesNext(index, items, run, it, i, if i == |items| then items + [it] else items[i := it]);
  }

  // ----- the buffer

  class HintBuffer {
    const splitCap: nat
    var maxoffset: u32
    var index: Index
    var collisions: Collisions
    var items: seq<HintItem>  // the used part
    var room: nat             // allocated length
    ghost var run: seq<HintItem>  // what was written

    ghost predicate Valid()
      reads this
    {
      && TablesOk(index, collisions, items) && Mirrors(items, run) && Indexes(index, items, run)
      && splitCap > 0 && |items| <= room && (|index| > 0 ==> room == splitCap)
    }

    constructor (splitCap: nat)
      requires splitCap > 0
      ensures Valid() && run == [] && items == [] && maxoffset == 0 && this.splitCap == splitCap
    {
      this.splitCap := splitCap;
      maxoffset, index, collisions, items, room, run := 0, map[], map[], [], 0, [];
    }

    /** The first half of Set: where the item goes, and a table for its hash if it
        is the first collision there. */
    method Place(it: HintItem) returns (idx: nat, found: bool, iscollision: bool)
      requires TablesOk(index, collisions, items)
      modifies this`collisions
      ensures TablesOk(index, collisions, items)
      ensures found ==> idx < |items| && SameId(items[idx], it) && OnlyAt(items, it, idx)
      ensures !found ==> OnlyAt(items, it, |items|)
      ensures iscollision ==> it.hash in collisions && (!found ==> it.key !in collisions[it.hash])
      ensures !found && !iscollision ==> it.hash !in index && it.hash !in collisions
    {
      hide TablesOk, IndexOk, CollisionsOk, Reached, Opened, Entered;
      InRange(index, collisions, items);
      Located(index, collisions, items, it.hash, it.key);
      found := it.hash in index;
      idx := if found then index[it.hash] else 0;
      iscollision := false;
      if found && it.key != items[idx].key {
        iscollision := true;
        found := it.hash in collisions;
        if found {
          found := it.key in collisions[it.hash];
          if found {
            idx := collisions[it.hash][it.key];
          }
        } else {
          TablesOpen(index, collisions, items, it.hash);
          OneKey(collisions, it.hash, items[idx].key, idx);
          collisions := Opened(collisions, it.hash, items[idx].key, idx);
        }
      }
    }

    /** The second half of Set: the item takes its place. */
    method Store(it: HintItem, idx: nat, found: bool, iscollision: bool)
      requires TablesOk(index, collisions, items) && Mirrors(items, run) && Indexes(index, items, run)
      requires if found then idx < |items| && SameId(items[idx], it) && OnlyAt(items, it, idx)
               else idx == |items| && OnlyAt(items, it, |items|)
      requires iscollision ==> it.hash in collisions && (!found ==> it.key !in collisions[it.hash])
      requires !found && !iscollision ==> it.hash !in index && it.hash !in collisions
      modifies this`items, this`index, this`collisions, this`run
      ensures TablesOk(index, collisions, items) && Mirrors(items, run) && Indexes(index, items, run)
      ensures run == old(run) + [it]
      ensures |items| == if found then old(|items|) else old(|items|) + 1
    {
      hide TablesOk, Mirrors, Last, Entered, OnlyAt, Indexes;
      IndexesStored(index, collisions, items, run, it, idx);
      if !found {
        MirrorAdd(items, run, it);
        if iscollision {
          TablesAddOther(index, collisions, items, it);
        } else {
          TablesAddFirst(index, collisions, items, it);
        }
        items := items + [it];
      } else {
        MirrorReplace(items, run, it, idx);
        TablesReplace(index, collisions, items, it, idx,
                      if iscollision then Entered(collisions, it.hash, it.key, idx) else collisions);
        items := items[idx := it];
      }
      index := index[it.hash := idx];
      if iscollision {
        collisions := Entered(collisions, it.hash, it.key, idx);
      }
      run := run + [it];
    }

    /** HintBuffer.Set: takes the item unless its key is new and the buffer full. */
    method Set(it: HintItem, recSize: u32) returns (ok: bool)
      requires Valid()
      modifies this
      ensures Valid()
      ensures !ok <==> old(Last(run, it.hash, it.key).None? && |items| == splitCap)
      ensures run == if ok then old(run) + [it] else old(run)
      ensures !ok ==> items == old(items)
      ensures ok ==> items != []
      ensures maxoffset ==
              if ok then Max(old(maxoffset), (it.offset + recSize) % 0x1_0000_0000) else Max(old(maxoffset), it.offset)
    {
      hide TablesOk, Mirrors, Last, OnlyAt, Indexes;
      InRange(index, collisions, items);
      if |index| == 0 {
        room := splitCap;
      }
      var idx, found, iscollision := Place(it);
      MirrorLast(items, run, it, found, idx);
      if !found {
        idx := |items|;
        if idx >= room {
          if it.offset > maxoffset {
            maxoffset := it.offset;
          }
          return false;
        }
      }
      Store(it, idx, found, iscollision);
      InRange(index, collisions, items);
      var end := (it.offset + recSize) % 0x1_0000_0000;
      if end > maxoffset {
        maxoffset := end;
      }
      ok := true;
    }

    /** HintBuffer.Get: the last item written for the key. */
    method Get(h: u64, k: Key) returns (it: Option<HintItem>, iscollision: bool)
      requires Valid()
      ensures it == Last(run, h, k)
      ensures iscollision <==> LastHash(run, h).Some? && LastHash(run, h).value.key != k
    {
      hide Last, LastHash;
      InRange(index, collisions, items);
      Located(index, collisions, items, h, k);
      MirrorLookup(items, run, h, k, Locate(index, collisions, items, h, k));
      var found := h in index;
      var idx: nat := 0;
      iscollision := false;
      if found {
        idx := index[h];
        if k != items[idx].key {
          iscollision := true;
          found := h in collisions;
          if found {
            found := k in collisions[h];
            if found {
              idx := collisions[h][k];
            }
          }
        }
      }
      it := if found then Some(items[idx]) else None;
    }
  }

  function Max(a: int, b: int): int {
    if b > a then b else a
  }
}
