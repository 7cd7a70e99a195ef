/**
  What a flush achieves: when it is over, the file has everything its chunk had taken when
  the flush began.
*/
module DataFlush {
  import opened Bytes
  import opened Records
  import opened DataStore

  /** A flush of chunk id is under way, and will put the first m records on disk. */
  ghost predicate Reaching(s: State, id: nat, m: nat) {
    && !s.flusher.Idle? && s.flusher.chunk == id < |s.chunks|
    && |s.chunks[id].wbuf| <= |s.chunks[id].log| && m <= |s.chunks[id].log|
    && match s.flusher
       case Writing(_, n, _, _, _) => m <= Gone(s.chunks[id]) + n
       case Flushed(_, n, _) => m <= Gone(s.chunks[id]) + n
       case Dropped(_, _) => m <= Gone(s.chunks[id])
       case _ => true
  }

  lemma StartsReaching(s: State, c: int)
    requires LogInv(s) && Enabled(s, Lock(c))
    ensures var id := if c < 0 then s.newHead else c;
            id < |s.chunks| && Reaching(Apply(s, Lock(c)), id, |s.chunks[id].log|)
  {
    hide EncodeAll, DiskOk, FlusherOk;
    assert ChunkOk(s.chunks[if c < 0 then s.newHead else c]);
  }

  lemma KeepsReaching(s: State, step: Step, id: nat, m: nat)
    requires LogInv(s) && Enabled(s, step) && Reaching(s, id, m) && !step.Subtract?
    ensures Reaching(Apply(s, step), id, m)
  {
    hide EncodeAll, Size, Encode, DiskOk;
    assert ChunkOk(s.chunks[id]);
    StepKeeps(s, step);
    assert ChunkOk(Apply(s, step).chunks[id]);
  }

  lemma {:induction false} ReachingUntil(tr: seq<State>, steps: seq<Step>, i: nat, j: nat, id: nat, m: nat)
    requires Run(tr, steps) && i <= j < |tr| && Reaching(tr[i], id, m)
    requires forall k :: i <= k < j ==> !steps[k].Subtract?
    ensures Reaching(tr[j], id, m)
    decreases j
  {
    hide LogInv, Apply, Enabled, Init, Reaching;
    if i < j {
      ReachingUntil(tr, steps, i, j - 1, id, m);
      RunKeeps(tr, steps, j - 1);
      assert Enabled(tr[j - 1], steps[j - 1]);
      KeepsReaching(tr[j - 1], steps[j - 1], id, m);
    }
  }

  lemma {:induction false} EncodeAllGrows(log: seq<Record>, m: nat, n: nat)
    requires m <= n <= |log|
    ensures EncodeAll(log[..m]) <= EncodeAll(log[..n])
  {
    hide EncodeAll, Encode;
    if m < n {
      EncodeAllGrows(log, m, n - 1);
      EncodeAllSnoc(log[..n - 1], log[n - 1]);
      assert log[..n] == log[..n - 1] + [log[n - 1]];
    }
  }

  lemma DroppedOnDisk(s: State, id: nat, m: nat)
    requires LogInv(s) && Reaching(s, id, m) && s.flusher.Dropped?
    ensures EncodeAll(s.chunks[id].log[..m]) <= s.chunks[id].disk
  {
    hide EncodeAll, ChunkOk;
    var c := s.chunks[id];
    assert DiskOk(s.flusher, id, c);
    assert c.disk + [] == c.disk;
    EncodeAllGrows(c.log, m, Gone(c));
  }

  /** In every run: a flush that is over has put on disk all that its chunk had taken when it
      began, the chunk it was asked for or else the one being appended to. */
  lemma FlushReaches(tr: seq<State>, steps: seq<Step>, i: nat, j: nat, c: int)
    requires Run(tr, steps) && i < j < |steps| && steps[i] == Lock(c) && steps[j] == Subtract
    requires forall k :: i < k < j ==> steps[k] != Subtract
    ensures |tr[i].chunks| == |tr[j].chunks| == MAX_NUM_CHUNK && tr[i].newHead < MAX_NUM_CHUNK && c < MAX_NUM_CHUNK
    ensures var id := if c < 0 then tr[i].newHead else c; EncodeAll(tr[i].chunks[id].log) <= tr[j].chunks[id].disk
  {
    hide Apply, Init, Reaching, DiskOk, ChunkOk, EncodeAll;
    assert Enabled(tr[i], steps[i]) && Enabled(tr[j], steps[j]);
    RunKeeps(tr, steps, i);
    RunKeeps(tr, steps, j);
    var id := if c < 0 then tr[i].newHead else c;
    var m := |tr[i].chunks[id].log|;
    StartsReaching(tr[i], c);
    ReachingUntil(tr, steps, i + 1, j, id, m);
    DroppedOnDisk(tr[j], id, m);
    RunGrows(tr, steps, i, j, id);
    assert tr[j].chunks[id].log[..m] == tr[i].chunks[id].log;
  }
}
