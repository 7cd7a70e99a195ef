/**
  Sequential reading of a data file. A damaged record makes the reader look for
  the next intact one at 256-byte steps.
*/
module DataStream {
  import opened Bytes
  import Checksum
  import opened Records

  /** The first block boundary from p on that has an intact record, or the end. */
  function NextAt(file: seq<byte>, p: nat): (q: nat)
    ensures p <= q
    decreases |file| - p
  {
    if p >= |file| || ReadAt(file, p).Some? then p else NextAt(file, p + PADDING)
  }

  /** A plausible header whose record reaches beyond the end of the file. */
  predicate Overruns(file: seq<byte>, p: nat) {
    && p + RECORD_HEADER <= |file|
    && ValidKeySize(Field(file, p + 16)) && ValidValueSize(Field(file, p + 20))
    && p + RECORD_HEADER + Field(file, p + 16) + Field(file, p + 20) > |file|
  }

  /** Every boundary that is skipped has no intact record. */
  lemma {:induction false} NextAtSkips(file: seq<byte>, p: nat, k: nat)
    requires p + PADDING * k < NextAt(file, p)
    ensures ReadAt(file, p + PADDING * k).None? && p + PADDING * k < |file|
    decreases k
  {
    hide ReadAt;
    if k > 0 {
      NextAtSkips(file, p + PADDING, k - 1);
    }
  }

  lemma Intact(file: seq<byte>, p: nat)
    requires ReadAt(file, p).Some?
    ensures !Overruns(file, p) && NextAt(file, p) == p < |file|
  {
    hide Checksum.Crc, Val;
  }

  lemma {:induction false} NextAtAligned(file: seq<byte>, p: nat)
    requires p % PADDING == 0 && |file| % PADDING == 0 && p <= |file|
    ensures var q := NextAt(file, p); q % PADDING == 0 && q <= |file| && (q < |file| <==> ReadAt(file, q).Some?)
    decreases |file| - p
  {
    if p < |file| && ReadAt(file, p).None? {
      NextAtAligned(file, p + PADDING);
    }
  }

  class StreamReader {
    const file: seq<byte>
    var pos: nat     // where the buffered reader stands
    var offset: nat  // where the next record is expected

    ghost predicate Synced()
      reads this
    {
      && |file| % PADDING == 0 && offset % PADDING == 0
      && pos == offset <= |file|
    }

    constructor (file: seq<byte>)
      ensures this.file == file && pos == offset == 0
    {
      this.file := file;
      pos, offset := 0, 0;
    }

    method Seek(offset: nat)
      modifies this
      ensures this.offset == pos == offset
    {
      this.offset, pos := offset, offset;
    }

    /** The resync scan: random access reads, one block further each time. */
    method NextValid() returns (res: Option<Record>, at: nat, sizeBroken: nat)
      requires |file| % PADDING == 0 && offset % PADDING == 0 && offset <= |file|
      modifies this
      ensures at == NextAt(file, old(offset)) && res == ReadAt(file, at)
      ensures sizeBroken == at - old(offset)
      ensures res.Some? ==> Synced() && offset == at + Size(res.value)
      ensures res.None? ==> offset == at == |file|
    {
      hide ReadAt, Padded;
      var start := offset / PADDING * PADDING;
      assert start == offset;
      at, sizeBroken := start, 0;
      NextAtAligned(file, start);
      while at < |file|
        invariant start <= at && at % PADDING == 0 && sizeBroken == at - start
        invariant at <= NextAt(file, at) == NextAt(file, start) <= |file|
        invariant offset == at
      {
        res := ReadAt(file, at);
        if res.Some? {
          RecordInside(file, at);
          offset := at + Size(res.value);
          pos := offset;
          return;
        }
        sizeBroken := sizeBroken + PADDING;
        at := at + PADDING;
        offset := at;
      }
      res := None;
    }

    /** The next intact record. An error is reported exactly when the header at
        the offset is plausible but its record overruns the file. */
    method Next() returns (res: Option<Record>, at: nat, sizeBroken: nat, err: bool)
      requires Synced()
      modifies this
      ensures err <==> Overruns(file, old(offset))
      ensures !err ==> res == ReadAt(file, NextAt(file, old(offset)))
      ensures !err ==> sizeBroken == NextAt(file, old(offset)) - old(offset)
      ensures at == if err || old(offset) == |file| then 0 else NextAt(file, old(offset))
      ensures res.Some? ==> !err && Synced() && offset == old(offset) + sizeBroken + Size(res.value)
      ensures !err && res.None? ==> offset == old(offset) + sizeBroken == |file|
    {
      hide Checksum.Crc, Val, Padded;
      res, at, sizeBroken, err := None, 0, 0, false;
      if pos == |file| {
        return;  // end of file
      }
      assert pos + RECORD_HEADER <= |file|;
      var header := pos;
      pos := pos + RECORD_HEADER;
      var ksz, vsz := Field(file, header + 16), Field(file, header + 20);
      if !ValidKeySize(ksz) || !ValidValueSize(vsz) {
        res, at, sizeBroken := NextValid();
        return;
      }
      if pos + ksz + vsz > |file| {
        return None, 0, 0, true;
      }
      var rec := Record(file[pos..pos + ksz], Field(file, header + 4), Field(file, header + 8),
                        I32(Field(file, header + 12)), file[pos + ksz..pos + ksz + vsz]);
      pos := header + Size(rec);
      if Field(file, header) != Checksum.Crc(file[header + 4..header + RealSize(rec)]) {
        res, at, sizeBroken := NextValid();
        return;
      }
      RecordInside(file, header);
      res := Some(rec);
      at := offset;
      offset := offset + Size(rec);
    }
  }

  /** In a file of whole blocks the padding of an intact record is inside too. */
  lemma RecordInside(file: seq<byte>, p: nat)
    requires ReadAt(file, p).Some? && p % PADDING == 0 && |file| % PADDING == 0
    ensures p + Size(ReadAt(file, p).value) <= |file|
    ensures (p + Size(ReadAt(file, p).value)) % PADDING == 0
  {
    hide Checksum.Crc, LE, Padded, Val;
    ReadHolds(file, p);
    PaddedInside(p, RealSize(ReadAt(file, p).value), |file|);
  }

  // ----- whole files

  /** What a scan from p delivers: offsets and records, and whether it ends in an error. */
  function ScanFrom(file: seq<byte>, p: nat): (seq<(nat, Record)>, bool)
    requires p % PADDING == 0 && |file| % PADDING == 0 && p <= |file|
    decreases |file| - p
  {
    if Overruns(file, p) then ([], true)
    else
      var q := NextAt(file, p);
      NextAtAligned(file, p);
      if q == |file| then ([], false)
      else
        var r := ReadAt(file, q).value;
        RecordInside(file, q);
        var (rest, err) := ScanFrom(file, q + Size(r));
        ([(q, r)] + rest, err)
  }

  lemma ScanEnd(file: seq<byte>)
    requires |file| % PADDING == 0
    ensures ScanFrom(file, |file|) == ([], false)
  {
  }

  /** The loop of every consumer of a data file, from a block boundary on. */
  method Scan(file: seq<byte>, start: nat) returns (out: seq<(nat, Record)>, err: bool)
    requires |file| % PADDING == 0 && start % PADDING == 0 && start <= |file|
    ensures (out, err) == ScanFrom(file, start)
  {
    hide ReadAt, Overruns, NextAt, Size;
    var reader := new StreamReader(file);
    reader.Seek(start);
    out, err := [], false;
    assert [] + ScanFrom(file, start).0 == ScanFrom(file, start).0;
    while true
      invariant reader.Synced() && reader.file == file
      invariant var (rest, e) := ScanFrom(file, reader.offset); (out + rest, e) == ScanFrom(file, start)
      decreases |file| - reader.offset
    {
      ghost var p := reader.offset;
      NextAtAligned(file, p);
      var res, at, sizeBroken, e := reader.Next();
      if e || res.None? {
        err := e;
        assert out + [] == out;
        return;
      }
      ghost var rest := ScanFrom(file, reader.offset).0;
      ConcatAssoc(out, [(at, res.value)], rest);
      out := out + [(at, res.value)];
    }
  }

  /** The records of a written file with their offsets, from the i-th on. */
  function Indexed(rs: seq<Record>, i: nat): (out: seq<(nat, Record)>)
    requires i <= |rs|
    decreases |rs| - i
  {
    if i == |rs| then [] else [(Offset(rs, i), rs[i])] + Indexed(rs, i + 1)
  }

  /** Streaming a written file gives back exactly what was written, each record
      at its offset, without error. */
  lemma {:induction false} ScanWritten(rs: seq<Record>, i: nat)
    requires i <= |rs| && forall k :: 0 <= k < |rs| ==> Storable(rs[k])
    ensures Offset(rs, i) % PADDING == 0 && Offset(rs, i) <= |EncodeAll(rs)| && |EncodeAll(rs)| % PADDING == 0
    ensures ScanFrom(EncodeAll(rs), Offset(rs, i)) == (Indexed(rs, i), false)
    decreases |rs| - i
  {
    hide EncodeAll, Size, ReadAt, Overruns, NextAt, Encode;
    var file := EncodeAll(rs);
    EncodeAllAligned(rs);
    EncodeAllAligned(rs[..i]);
    if i == |rs| {
      assert rs[..i] == rs;
      ScanEnd(file);
    } else {
      ScanWritten(rs, i + 1);
      EncodeAllAt(rs, i);
      HoldsRead(file, Offset(rs, i), rs[i]);
      Intact(file, Offset(rs, i));
    }
  }
}
