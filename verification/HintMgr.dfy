/**
  The index of a bucket while it is in memory: one list of splits per data chunk,
  searched from the newest chunk down.
*/
module HintMgr {
  import opened Bytes
  import opened HintItems
  import opened HintBuffer
  import opened HintChunk
  import opened Logs

  class HintMgr {
    const chunks: seq<HintChunk>
    var maxChunkID: nat
    ghost var logs: seq<seq<HintItem>>  // what each chunk was given
    ghost var Repr: set<object>

    ghost predicate Valid()
      reads this, Repr
    {
      && this in Repr && |logs| == |chunks| && maxChunkID < |chunks|
      && (forall i :: 0 <= i < |chunks| ==> chunks[i] in Repr && chunks[i] in chunks[i].Repr)
      && (forall i :: 0 <= i < |chunks| ==> chunks[i].Repr <= Repr && this !in chunks[i].Repr)
      && (forall i :: 0 <= i < |chunks| ==> chunks[i].Valid() && Flat(chunks[i].runs) == logs[i])
      && (forall i, j :: 0 <= i < |chunks| && 0 <= j < |chunks| && i != j ==> chunks[i].Repr !! chunks[j].Repr)
      && forall i :: maxChunkID < i < |chunks| ==> logs[i] == []
    }

    /** newHintMgr: n chunks with one empty split each. */
    constructor (n: nat, splitCap: nat)
      requires n > 0 && splitCap > 0
      ensures Valid() && fresh(Repr) && |logs| == |chunks| == n && forall i :: 0 <= i < n ==> logs[i] == []
      ensures forall i :: 0 <= i < n ==> chunks[i].splitCap == splitCap
    {
      hide Flat;
      var cs: seq<HintChunk> := [];
      ghost var r: set<object> := {};
      for i := 0 to n
        invariant |cs| == i && fresh(r)
        invariant forall j :: 0 <= j < i ==> cs[j] in cs[j].Repr && cs[j].Repr <= r
        invariant forall j :: 0 <= j < i ==> cs[j].Valid() && Flat(cs[j].runs) == [] && cs[j].splitCap == splitCap
        invariant forall j, k :: 0 <= j < k < i ==> cs[j].Repr !! cs[k].Repr
      {
        var c := new HintChunk(splitCap);
        cs := cs + [c];
        r := r + c.Repr;
      }
      chunks, maxChunkID, logs := cs, 0, seq(n, _ => []);
      Repr := r + {this};
    }

    /** setItem */
    method SetItem(it: HintItem, chunkID: nat, recSize: u32) returns (rotated: bool)
      requires Valid() && chunkID < |chunks|
      modifies Repr
      ensures Valid() && fresh(Repr - old(Repr))
      ensures logs == old(logs)[chunkID := old(logs[chunkID]) + [it]]
      ensures chunks[chunkID].Valid()
      ensures rotated <==> old(chunks[chunkID].Full(it))
      ensures chunks[chunkID].Covered() ==
              Max(if rotated then 0 else old(chunks[chunkID].Covered()), (it.offset + recSize) % 0x1_0000_0000)
    {
      hide Flat, HintChunk.Valid, HintChunk.Full, HintChunk.Covered, Max;
      var c := chunks[chunkID];
      rotated := c.SetItem(it, recSize);
      InRepr(c);
      Repr := Repr + c.Repr;
      logs := logs[chunkID := logs[chunkID] + [it]];
      if chunkID > maxChunkID {
        maxChunkID := chunkID;
      }
    }

    /** getItem: the last item for the key in the newest chunk that has one. */
    method GetItem(h: u64, k: Key) returns (it: Option<HintItem>, chunkID: nat)
      requires Valid()
      ensures it.Some? ==> chunkID < |logs| && Last(logs[chunkID], h, k) == it
      ensures forall i :: (if it.Some? then chunkID < i else 0 <= i) && i < |logs| ==> Last(logs[i], h, k).None?
    {
      hide Flat, HintChunk.Valid, Last;
      chunkID := 0;
      it := None;
      NoneYet(h, k);
      var i: int := maxChunkID;
      while i >= 0
        invariant -1 <= i < |chunks| && it == None
        invariant forall j :: i < j < |logs| ==> Last(logs[j], h, k).None?
      {
        it := chunks[i].GetMemOnly(h, k);
        if it != None {
          chunkID := i;
          return;
        }
        i := i - 1;
      }
    }
  }

  lemma InRepr(c: HintChunk)
    requires c.Valid()
    ensures c in c.Repr
  {
  }

  lemma NoneYet(h: u64, k: Key)
    ensures Last([], h, k) == None
  {
  }
}
