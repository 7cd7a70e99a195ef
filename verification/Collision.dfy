/**
  The table of keys whose hashes collide: per hash, the newest known item of each key.
*/
module Collision {
  import opened Bytes
  import opened HintItems

  type Table = map<u64, map<Key, HintItem>>

  /** Position.CmpKey: positions in log order. */
  function CmpKey(it: HintItem): nat {
    it.chunk * 0x1_0000_0000 + it.offset
  }

  /** Positions are compared by chunk, then by offset. */
  lemma LogOrder(a: HintItem, b: HintItem)
    ensures CmpKey(a) < CmpKey(b) <==> a.chunk < b.chunk || (a.chunk == b.chunk && a.offset < b.offset)
  {
  }

  function Filed(t: Table, h: u64, k: Key): Option<HintItem> {
    if h in t && k in t[h] then Some(t[h][k]) else None
  }

  /** Items are filed under their own hash and key. */
  ghost predicate TableOk(t: Table) {
    forall h, k :: h in t && k in t[h] ==> Is(t[h][k], h, k)
  }

  class CollisionTable {
    var items: Table

    constructor ()
      ensures items == map[]
    {
      items := map[];
    }

    /** get: the item, and whether the hash is in the table at all. */
    method Get(h: u64, k: Key) returns (item: Option<HintItem>, ok: bool)
      ensures item == Filed(items, h, k) && ok == (h in items)
    {
      item := None;
      ok := h in items;
      if ok {
        if k in items[h] {
          item := Some(items[h][k]);
        }
      }
    }

    /** compareAndSet: a later position wins; a collection always does. */
    method CompareAndSet(it: HintItem, gc: bool)
      requires TableOk(items)
      modifies this
      ensures TableOk(items)
      ensures Filed(items, it.hash, it.key) == Some(if gc then it else Newer(old(Filed(items, it.hash, it.key)), it))
      ensures forall h, k :: !Is(it, h, k) ==> Filed(items, h, k) == old(Filed(items, h, k))
      ensures forall h :: h in items <==> h in old(items) || h == it.hash
    {
      if it.hash in items {
        var keys := items[it.hash];
        if it.key !in keys || gc || CmpKey(it) >= CmpKey(keys[it.key]) {
          items := items[it.hash := keys[it.key := it]];
        }
      } else {
        items := items[it.hash := map[it.key := it]];
      }
    }
  }

  /** The later of two items for a key. */
  function Newer(x: Option<HintItem>, it: HintItem): HintItem {
    if x.None? || CmpKey(it) >= CmpKey(x.value) then it else x.value
  }
}
