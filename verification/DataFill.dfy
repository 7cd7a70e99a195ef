/**
  Where a run of the append log puts its records: in the order they came, one file filled
  after the other, and no file left while the next record still fits.
*/
module DataFill {
  import opened Bytes
  import opened Records
  import opened DataStore
  import opened Logs

  /** What a run from s0 to s has filled. A chunk is left exactly when the record that came
      next did not fit; only a record of its own may exceed a file. */
  ghost predicate Filled(s0: State, s: State) {
    && |s0.chunks| == |s.chunks| && s0.newHead <= s.newHead < |s.chunks|
    && (forall c :: 0 <= c < |s.chunks| && (c < s0.newHead || s.newHead < c) ==> s.chunks[c].log == s0.chunks[c].log)
    && (forall c :: s0.newHead <= c < s.newHead ==> Overflows(s.chunks, c))
    && (forall c :: 0 <= c < |s.chunks| ==> FitsFile(s0.chunks[c].log, s.chunks[c].log))
  }

  /** The first record of the next chunk would not fit into chunk c. */
  ghost predicate Overflows(chunks: seq<Chunk>, c: nat)
    requires c + 1 < |chunks|
  {
    chunks[c + 1].log != [] && |EncodeAll(chunks[c].log)| + Size(chunks[c + 1].log[0]) > DATA_FILE_MAX
  }

  ghost predicate FitsFile(log0: seq<Record>, log: seq<Record>) {
    log == log0 || |log| == 1 || |EncodeAll(log)| <= DATA_FILE_MAX
  }

  /** The records of all chunks, in the order of the chunks. */
  ghost function LogsOf(s: State): seq<seq<Record>> {
    seq(|s.chunks|, c requires 0 <= c < |s.chunks| => s.chunks[c].log)
  }

  /** The records appended by some steps, in order. */
  function Appends(steps: seq<Step>): seq<Record> {
    if steps == [] then []
    else
      var last := steps[|steps| - 1];
      Appends(steps[..|steps| - 1]) + if last.Append? then [last.rec] else []
  }

  lemma OtherSteps(s: State, step: Step, c: nat)
    requires LogInv(s) && Enabled(s, step) && !step.Append? && c < |s.chunks|
    ensures var s' := Apply(s, step);
            |s'.chunks| == |s.chunks| && s'.newHead == s.newHead && s'.chunks[c].log == s.chunks[c].log
  {
    hide EncodeAll, ChunkOk, DiskOk, FlusherOk, Encode, Size;
  }

  /** Where an append goes: to the end of the last chunk if it fits there, else to the next. */
  lemma AppendGoes(s: State, r: Record)
    requires LogInv(s) && Enabled(s, Append(r))
    ensures var s' := Apply(s, Append(r));
            var fits := |EncodeAll(s.chunks[s.newHead].log)| + Size(r) <= DATA_FILE_MAX;
            && s'.newHead == (if fits then s.newHead else s.newHead + 1) < |s.chunks| == |s'.chunks|
            && LogsOf(s') == LogsOf(s)[s'.newHead := s.chunks[s'.newHead].log + [r]]
            && (!fits ==> s.chunks[s'.newHead].log == [])
  {
    hide EncodeAll, DiskOk, Encode, Size;
    assert ChunkOk(s.chunks[s.newHead]);
  }

  lemma FilledAppend(s0: State, s: State, r: Record)
    requires LogInv(s) && Enabled(s, Append(r)) && Filled(s0, s)
    ensures Filled(s0, Apply(s, Append(r)))
  {
    hide EncodeAll, LogInv, Enabled, Apply, Encode, Size;
    AppendGoes(s, r);
    var s' := Apply(s, Append(r));
    var h := s'.newHead;
    var log := s.chunks[h].log;
    assert forall c :: 0 <= c < |s.chunks| ==> LogsOf(s)[c] == s.chunks[c].log && LogsOf(s')[c] == s'.chunks[c].log;
    EncodeAllSnoc(log, r);
    forall c | s0.newHead <= c < s'.newHead
      ensures Overflows(s'.chunks, c)
    {
      assert c < s.newHead ==> Overflows(s.chunks, c);
    }
    forall c | 0 <= c < |s.chunks|
      ensures FitsFile(s0.chunks[c].log, s'.chunks[c].log)
    {
      assert FitsFile(s0.chunks[c].log, s.chunks[c].log);
    }
  }

  lemma FilledOther(s0: State, s: State, step: Step)
    requires LogInv(s) && Enabled(s, step) && !step.Append? && Filled(s0, s)
    ensures Filled(s0, Apply(s, step)) && LogsOf(Apply(s, step)) == LogsOf(s)
  {
    hide EncodeAll, LogInv, Enabled, Apply, Encode, Size, FitsFile;
    var s' := Apply(s, step);
    OtherSteps(s, step, s.newHead);
    forall c | 0 <= c < |s.chunks|
      ensures s'.chunks[c].log == s.chunks[c].log
    {
      OtherSteps(s, step, c);
    }
    forall c | s0.newHead <= c < s'.newHead
      ensures Overflows(s'.chunks, c)
    {
      assert Overflows(s.chunks, c);
    }
  }

  /** Every run: the chunks together hold what they held and then all records appended, in
      order, and each chunk was filled before the next was begun. */
  lemma {:induction false} RunFills(tr: seq<State>, steps: seq<Step>, i: nat)
    requires Run(tr, steps) && i < |tr|
    ensures Filled(tr[0], tr[i])
    ensures Flat(LogsOf(tr[i])) == Flat(LogsOf(tr[0])) + Appends(steps[..i])
  {
    hide LogInv, Apply, Enabled, EncodeAll, Filled, Flat, Encode, Size;
    if i == 0 {
      InitFilled(tr[0]);
      assert steps[..0] == [] && Flat(LogsOf(tr[0])) + [] == Flat(LogsOf(tr[0]));
    } else {
      var s, step := tr[i - 1], steps[i - 1];
      RunFills(tr, steps, i - 1);
      RunKeeps(tr, steps, i - 1);
      assert Enabled(s, step) && tr[i] == Apply(s, step);
      assert steps[..i][..i - 1] == steps[..i - 1] && steps[..i][i - 1] == step;
      if step.Append? {
        FilledAppend(tr[0], s, step.rec);
        FlatAppend(s, step.rec);
        ConcatAssoc(Flat(LogsOf(tr[0])), Appends(steps[..i - 1]), [step.rec]);
      } else {
        FilledOther(tr[0], s, step);
        assert Appends(steps[..i]) == Appends(steps[..i - 1]) + [];
      }
    }
  }

  lemma InitFilled(s: State)
    requires Init(s)
    ensures Filled(s, s)
  {
    hide EncodeAll;
  }

  lemma FlatAppend(s: State, r: Record)
    requires LogInv(s) && Enabled(s, Append(r))
    ensures Flat(LogsOf(Apply(s, Append(r)))) == Flat(LogsOf(s)) + [r]
  {
    hide EncodeAll, Apply, Enabled, Encode, Size, ChunkOk, DiskOk, Flat;
    AppendGoes(s, r);
    var h := Apply(s, Append(r)).newHead;
    assert LogsOf(s)[h] == s.chunks[h].log;
    FlatExtend(LogsOf(s), h, r);
  }
}
