/**
  The index of one data chunk: a list of splits, of which the last takes new
  items until it is full, and the sorted form in which a split goes to disk.
*/
module HintChunk {
  import opened Bytes
  import opened HintItems
  import opened HintBuffer
  import opened Logs

  // ----- runs

  /** Later splits win. */
  lemma {:induction false} LastFlat(runs: seq<seq<HintItem>>, n: nat, h: u64, k: Key)
    requires n < |runs| && Last(runs[n], h, k).Some?
    requires forall j :: n < j < |runs| ==> Last(runs[j], h, k).None?
    ensures Last(Flat(runs), h, k) == Last(runs[n], h, k)
  {
    hide Last;
    var m := |runs| - 1;
    LastConcat(Flat(runs[..m]), runs[m], h, k);
    if n < m {
      LastFlat(runs[..m], n, h, k);
    }
  }

  lemma {:induction false} LastFlatNone(runs: seq<seq<HintItem>>, h: u64, k: Key)
    requires forall j :: 0 <= j < |runs| ==> Last(runs[j], h, k).None?
    ensures Last(Flat(runs), h, k).None?
  {
    if runs != [] {
      var m := |runs| - 1;
      LastConcat(Flat(runs[..m]), runs[m], h, k);
      LastFlatNone(runs[..m], h, k);
    }
  }

  // ----- the chunk

  class HintChunk {
    const splitCap: nat
    var splits: seq<HintBuffer>
    ghost var runs: seq<seq<HintItem>>  // what each split was given
    ghost var Repr: set<object>

    ghost predicate Valid()
      reads this, Repr
    {
      && this in Repr && splitCap > 0 && |splits| == |runs| > 0
      && (forall i :: 0 <= i < |splits| ==> splits[i] in Repr)
      && (forall i, j :: 0 <= i < j < |splits| ==> splits[i] != splits[j])
      && forall i :: 0 <= i < |splits| ==>
           splits[i].Valid() && splits[i].splitCap == splitCap && splits[i].run == runs[i]
    }

    constructor (splitCap: nat)
      requires splitCap > 0
      ensures Valid() && fresh(Repr) && Flat(runs) == [] && this.splitCap == splitCap
    {
      this.splitCap := splitCap;
      var b := new HintBuffer(splitCap);
      splits := [b];
      runs := [[]];
      Repr := {this, b};
      FlatSnoc<HintItem>([], []);
    }

    ghost predicate Full(it: HintItem)
      reads this, Repr
      requires Valid()
    {
      var l := |splits| - 1;
      Last(runs[l], it.hash, it.key).None? && |splits[l].items| == splitCap
    }

    /** How much of the data file the last split accounts for. */
    ghost function Covered(): u32
      reads this, Repr
      requires Valid()
    {
      splits[|splits| - 1].maxoffset
    }

    /** rotate: a new, empty split at the end. */
    method Rotate()
      requires Valid()
      modifies this
      ensures Valid() && |splits| == old(|splits|) + 1 && old(splits) <= splits && fresh(splits[|splits| - 1])
      ensures Repr == old(Repr) + {splits[|splits| - 1]}
      ensures runs == old(runs) + [[]] && splits[|splits| - 1].items == [] && Covered() == 0
    {
      hide HintBuffer.Valid;
      var b := new HintBuffer(splitCap);
      splits := splits + [b];
      runs := runs + [[]];
      Repr := Repr + {b};
    }

    /** Writing to the last split. */
    method Offer(it: HintItem, recSize: u32) returns (ok: bool)
      requires Valid()
      modifies this`runs, splits[|splits| - 1]
      ensures Valid()
      ensures splits[|splits| - 1] == old(splits[|splits| - 1])
      ensures old(splits[|splits| - 1].items == []) ==> ok
      ensures ok <==> !old(Full(it))
      ensures Covered() == Max(old(Covered()), if ok then (it.offset + recSize) % 0x1_0000_0000 else it.offset)
      ensures runs == if ok then old(runs)[|splits| - 1 := old(runs[|splits| - 1]) + [it]] else old(runs)
    {
      hide HintBuffer.Valid, Last;
      var l := |splits|;
      ok := splits[l - 1].Set(it, recSize);
      if ok {
        runs := runs[l - 1 := runs[l - 1] + [it]];
      }
    }

    /** setItem: the item is written to the last split, or to a new one if the key is new and
        the last split full. The split accounts for the data up to the end of the record. */
    method SetItem(it: HintItem, recSize: u32) returns (rotated: bool)
      requires Valid()
      modifies Repr
      ensures Valid() && old(splits) <= splits && fresh(Repr - old(Repr))
      ensures Flat(runs) == old(Flat(runs)) + [it]
      ensures |splits| == if rotated then old(|splits|) + 1 else old(|splits|)
      ensures rotated <==> old(Full(it))
      ensures Covered() == Max(if rotated then 0 else old(Covered()), (it.offset + recSize) % 0x1_0000_0000)
      ensures forall i :: 0 <= i < old(|splits|) - 1 ==> splits[i].maxoffset == old(splits[i].maxoffset)
      ensures rotated ==> splits[|splits| - 2].maxoffset == Max(old(Covered()), it.offset)
    {
      hide HintBuffer.Valid, Flat;
      ghost var runs0 := runs;
      var ok := Offer(it, recSize);
      rotated := !ok;
      if ok {
        FlatExtend(runs0, |runs0| - 1, it);
      } else {
        Rotate();
        var _ := Offer(it, recSize);
        FlatSnoc(runs0, []);
        FlatExtend(runs0 + [[]], |runs0|, it);
        assert Flat(runs0) + [] == Flat(runs0);
      }
    }

    /** getMemOnly: the last item written for the key, looking at the newest split first. */
    method GetMemOnly(h: u64, k: Key) returns (it: Option<HintItem>)
      requires Valid()
      ensures it == Last(Flat(runs), h, k)
    {
      hide Last, Flat, HintBuffer.Valid;
      var sp := |splits| - 1;
      while sp >= 0
        invariant -1 <= sp < |splits|
        invariant forall j :: sp < j < |splits| ==> Last(runs[j], h, k).None?
      {
        var coll: bool;
        it, coll := splits[sp].Get(h, k);
        if it != None {
          LastFlat(runs, sp, h, k);
          return;
        }
        sp := sp - 1;
      }
      LastFlatNone(runs, h, k);
      it := None;
    }
  }

  // ----- the sorted form

  /** A place for an item in a sorted sequence. */
  function Insert(s: seq<HintItem>, it: HintItem): (r: seq<HintItem>)
    ensures |r| == |s| + 1
  {
    if s == [] || !Less(it, s[|s| - 1]) then s + [it]
    else Insert(s[..|s| - 1], it) + [s[|s| - 1]]
  }

  lemma {:induction false} InsertHas(s: seq<HintItem>, it: HintItem, x: HintItem)
    ensures x in Insert(s, it) <==> x in s || x == it
  {
    if s != [] && Less(it, s[|s| - 1]) {
      var m := |s| - 1;
      InsertHas(s[..m], it, x);
      assert s == s[..m] + [s[m]];
    }
  }

  lemma {:induction false} InsertSorted(s: seq<HintItem>, it: HintItem)
    requires Sorted(s) && forall i :: 0 <= i < |s| ==> !SameId(s[i], it)
    ensures Sorted(Insert(s, it))
  {
    hide Less;
    if s != [] {
      var m := |s| - 1;
      LessTotal(it, s[m]);
      if Less(it, s[m]) {
        InsertSorted(s[..m], it);
        forall i | 0 <= i < |Insert(s[..m], it)|
          ensures Less(Insert(s[..m], it)[i], s[m])
        {
          InsertHas(s[..m], it, Insert(s[..m], it)[i]);
        }
      } else {
        forall i | 0 <= i < m
          ensures Less(s[i], it)
        {
          LessTrans(s[i], s[m], it);
        }
      }
    }
  }

  /** A split as it goes to disk: the last item of each key of a run, sorted. */
  ghost predicate DumpOf(file: seq<HintItem>, run: seq<HintItem>) {
    && Sorted(file)
    && (forall it :: it in file <==> it in run && Last(run, it.hash, it.key) == Some(it))
  }

  /** The order in which HintBuffer.Dump writes the items. Insertion stands for the
      library's sort. */
  method SortForDump(b: HintBuffer) returns (file: seq<HintItem>)
    requires b.Valid()
    ensures DumpOf(file, b.run) && |file| == |b.items|
  {
    hide Insert, Last, Less;
    file := [];
    for i := 0 to |b.items|
      invariant |file| == i && Sorted(file)
      invariant forall x :: x in file <==> x in b.items[..i]
    {
      SortStep(b.index, b.collisions, b.items, b.run, file, i);
      file := Insert(file, b.items[i]);
    }
    Dumped(b.items, b.run, file);
  }

  lemma SortStep(index: Index, coll: Collisions, items: seq<HintItem>, run: seq<HintItem>, file: seq<HintItem>, i: nat)
    requires TablesOk(index, coll, items) && i < |items| && Sorted(file)
    requires forall x :: x in file <==> x in items[..i]
    ensures Sorted(Insert(file, items[i]))
    ensures forall x :: x in Insert(file, items[i]) <==> x in items[..i + 1]
  {
    hide Insert, Less;
    var it := items[i];
    Located(index, coll, items, it.hash, it.key);
    assert items[..i + 1] == items[..i] + [it];
    forall j | 0 <= j < |file|
      ensures !SameId(file[j], it)
    {
      assert file[j] in items[..i];
    }
    InsertSorted(file, it);
    forall x: HintItem
      ensures x in Insert(file, items[i]) <==> x in items[..i + 1]
    {
      InsertHas(file, it, x);
    }
  }

  lemma Dumped(items: seq<HintItem>, run: seq<HintItem>, file: seq<HintItem>)
    requires Mirrors(items, run) && Sorted(file) && forall x :: x in file <==> x in items[..|items|]
    ensures DumpOf(file, run)
  {
    hide Less, Sorted;
    assert items[..|items|] == items;
    forall it: HintItem
      ensures it in file <==> it in run && Last(run, it.hash, it.key) == Some(it)
    {
      if it in items {
        var i :| 0 <= i < |items| && items[i] == it;
        assert Last(run, items[i].hash, items[i].key) == Some(items[i]);
      }
    }
  }
}
