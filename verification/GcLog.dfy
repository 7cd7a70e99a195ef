/**
  Which records a collection keeps. Without interference they are a function of the
  state before it; a client write changes what is kept of its own key only, and of
  that key the log above the range has the last word.
*/
module GcLog {
  import opened Bytes
  import opened Records
  import opened DataStore
  import opened Logs
  import opened Gc

  // ----- what is kept without interference

  function SurvivorsIn(b: Before, c: nat, n: nat): seq<Record>
    requires c < |b.logs| && n <= |b.logs[c]|
  {
    if n == 0 then []
    else SurvivorsIn(b, c, n - 1) + if Kept(b, c, n - 1) then [b.logs[c][n - 1]] else []
  }

  function SurvivorsBefore(b: Before, c: nat): seq<Record>
    requires c <= |b.logs|
  {
    if c <= b.begin then []
    else SurvivorsBefore(b, c - 1) + SurvivorsIn(b, c - 1, |b.logs[c - 1]|)
  }

  /** The survivors of the range up to record n of chunk c. */
  function Survivors(b: Before, c: nat, n: nat): seq<Record>
    requires c < |b.logs| && n <= |b.logs[c]|
  {
    SurvivorsBefore(b, c) + SurvivorsIn(b, c, n)
  }

  lemma SurvivorsStep(b: Before, c: nat, n: nat)
    requires c < |b.logs| && n < |b.logs[c]|
    ensures Survivors(b, c, n + 1) ==
            if Kept(b, c, n) then Survivors(b, c, n) + [b.logs[c][n]] else Survivors(b, c, n)
  {
    hide SurvivorsBefore, Kept;
    ConcatAssoc(SurvivorsBefore(b, c), SurvivorsIn(b, c, n), [b.logs[c][n]]);
    assert SurvivorsIn(b, c, n) + [] == SurvivorsIn(b, c, n);
  }

  lemma SurvivorsChunk(b: Before, c: nat)
    requires b.begin <= c && c + 1 < |b.logs|
    ensures Survivors(b, c + 1, 0) == Survivors(b, c, |b.logs[c]|)
  {
    assert SurvivorsBefore(b, c + 1) + [] == SurvivorsBefore(b, c + 1);
  }

  lemma SurvivorsNone(b: Before)
    requires b.begin < |b.logs|
    ensures Survivors(b, b.begin, 0) == []
  {
  }

  /** The records of the range up to record n of chunk c. */
  ghost function Ranged(b: Before, c: nat, n: nat): seq<Record>
    requires b.begin <= c < |b.logs| && n <= |b.logs[c]|
  {
    Flat(b.logs[b.begin..c]) + b.logs[c][..n]
  }

  lemma RangedStep(b: Before, c: nat, n: nat)
    requires b.begin <= c < |b.logs| && n < |b.logs[c]|
    ensures Ranged(b, c, n + 1) == Ranged(b, c, n) + [b.logs[c][n]]
  {
    hide Flat;
    assert b.logs[c][..n + 1] == b.logs[c][..n] + [b.logs[c][n]];
    ConcatAssoc(Flat(b.logs[b.begin..c]), b.logs[c][..n], [b.logs[c][n]]);
  }

  lemma RangedChunk(b: Before, c: nat)
    requires b.begin <= c && c + 1 < |b.logs|
    ensures Ranged(b, c + 1, 0) == Ranged(b, c, |b.logs[c]|) == Flat(b.logs[b.begin..c + 1])
  {
    var m := c - b.begin;
    assert b.logs[b.begin..c + 1][..m] == b.logs[b.begin..c];
    assert b.logs[c][..|b.logs[c]|] == b.logs[c];
    assert Flat(b.logs[b.begin..c + 1]) + [] == Flat(b.logs[b.begin..c + 1]);
  }

  lemma RangedNone(b: Before)
    requires b.begin < |b.logs|
    ensures Ranged(b, b.begin, 0) == []
  {
    assert b.logs[b.begin..b.begin] == [];
  }

  // ----- parts of a log

  /** The records of one key. */
  function Of(s: seq<Record>, k: Key): seq<Record> {
    if s == [] then []
    else
      var rest := Of(s[..|s| - 1], k);
      if s[|s| - 1].key == k then rest + [s[|s| - 1]] else rest
  }

  lemma OfSnoc(s: seq<Record>, r: Record, k: Key)
    ensures Of(s + [r], k) == if r.key == k then Of(s, k) + [r] else Of(s, k)
  {
    assert (s + [r])[..|s|] == s;
  }

  /** a is s with some records left out. */
  predicate Thinned(a: seq<Record>, s: seq<Record>) {
    || a == []
    || (s != [] && a[|a| - 1] == s[|s| - 1] && Thinned(a[..|a| - 1], s[..|s| - 1]))
    || (s != [] && Thinned(a, s[..|s| - 1]))
  }

  lemma ThinnedSnoc(a: seq<Record>, s: seq<Record>, r: Record)
    requires Thinned(a, s)
    ensures Thinned(a + [r], s + [r]) && Thinned(a, s + [r])
  {
    assert (s + [r])[..|s|] == s && (a + [r])[..|a|] == a;
  }

  // ----- the account of a collection

  /** What was kept of the range up to record n of chunk c. Keys written by clients since
      the collection began have their entry above the range. */
  ghost predicate Account(b: Before, kept: seq<Record>, written: set<Key>, c: nat, n: nat) {
    && b.begin <= c < |b.logs| && n <= |b.logs[c]| && c <= b.end + 1 && (c == b.end + 1 ==> n == 0)
    && Thinned(kept, Ranged(b, c, n))
    && (written == {} ==> kept == Survivors(b, c, n))
    && (forall k :: k !in written ==> Of(kept, k) == Of(Survivors(b, c, n), k))
    && (forall k :: k in written ==> k in b.htree && b.htree[k].pos.chunk > b.end)
  }

  lemma AccountStart(b: Before)
    requires b.begin <= b.end && b.begin < |b.logs|
    ensures Account(b, [], {}, b.begin, 0)
  {
    hide Ranged, Survivors;
    SurvivorsNone(b);
    RangedNone(b);
  }

  lemma AccountStep(b: Before, kept: seq<Record>, written: set<Key>, c: nat, n: nat)
    requires Account(b, kept, written, c, n) && c <= b.end && n < |b.logs[c]|
    ensures Account(b, if Kept(b, c, n) then kept + [b.logs[c][n]] else kept, written, c, n + 1)
  {
    hide Ranged, Survivors, Of, Thinned, EncodeAll;
    var r := b.logs[c][n];
    var kept' := if Kept(b, c, n) then kept + [r] else kept;
    RangedStep(b, c, n);
    SurvivorsStep(b, c, n);
    ThinnedSnoc(kept, Ranged(b, c, n), r);
    assert r.key in written ==> !Kept(b, c, n);
    forall k | k !in written
      ensures Of(kept', k) == Of(Survivors(b, c, n + 1), k)
    {
      OfSnoc(kept, r, k);
      OfSnoc(Survivors(b, c, n), r, k);
    }
  }

  lemma AccountChunk(b: Before, kept: seq<Record>, written: set<Key>, c: nat)
    requires c < |b.logs| && Account(b, kept, written, c, |b.logs[c]|) && c <= b.end && b.end + 1 < |b.logs|
    ensures Account(b, kept, written, c + 1, 0)
  {
    hide Ranged, Survivors, Of, Thinned;
    RangedChunk(b, c);
    SurvivorsChunk(b, c);
  }

  lemma KeptOther(b: Before, w: ClientWrite, c: nat, n: nat)
    requires b.end < w.chunk < |b.logs| && c < |b.logs| && n <= |b.logs[c]| && (c <= b.end || n == 0)
    ensures n <= |Add(b, w).logs[c]| && (c <= b.end ==> Add(b, w).logs[c] == b.logs[c])
    ensures n < |b.logs[c]| && c <= b.end && b.logs[c][n].key != w.rec.key ==> Kept(Add(b, w), c, n) == Kept(b, c, n)
  {
    hide EncodeAll;
  }

  /** A write does not change what is kept of other keys. */
  lemma {:induction false} SurvivorsInOther(b: Before, w: ClientWrite, c: nat, n: nat, k: Key)
    requires b.end < w.chunk < |b.logs| && c < |b.logs| && n <= |b.logs[c]| && (c <= b.end || n == 0) && k != w.rec.key
    ensures n <= |Add(b, w).logs[c]| && Of(SurvivorsIn(Add(b, w), c, n), k) == Of(SurvivorsIn(b, c, n), k)
  {
    hide EncodeAll, Add, Kept, Of;
    KeptOther(b, w, c, n);
    if n > 0 {
      KeptOther(b, w, c, n - 1);
      SurvivorsInOther(b, w, c, n - 1, k);
      var r, x, y := b.logs[c][n - 1], SurvivorsIn(b, c, n - 1), SurvivorsIn(Add(b, w), c, n - 1);
      OfSnoc(x, r, k);
      OfSnoc(y, r, k);
      assert x + [] == x && y + [] == y;
    }
  }

  lemma {:induction false} OfConcat(a: seq<Record>, s: seq<Record>, k: Key)
    ensures Of(a + s, k) == Of(a, k) + Of(s, k)
  {
    if s == [] {
      assert a + s == a;
    } else {
      var m := |s| - 1;
      OfConcat(a, s[..m], k);
      assert (a + s)[..|a| + m] == a + s[..m];
    }
  }

  lemma {:induction false} SurvivorsBeforeOther(b: Before, w: ClientWrite, c: nat, k: Key)
    requires b.end < w.chunk < |b.logs| && c <= b.end + 1 && k != w.rec.key
    ensures Of(SurvivorsBefore(Add(b, w), c), k) == Of(SurvivorsBefore(b, c), k)
  {
    hide Add, Of, SurvivorsIn;
    if c > b.begin {
      var b' := Add(b, w);
      SurvivorsBeforeOther(b, w, c - 1, k);
      KeptOther(b, w, c - 1, |b.logs[c - 1]|);
      SurvivorsInOther(b, w, c - 1, |b.logs[c - 1]|, k);
      OfConcat(SurvivorsBefore(b, c - 1), SurvivorsIn(b, c - 1, |b.logs[c - 1]|), k);
      OfConcat(SurvivorsBefore(b', c - 1), SurvivorsIn(b', c - 1, |b.logs[c - 1]|), k);
    }
  }

  lemma AccountWrite(b: Before, kept: seq<Record>, written: set<Key>, c: nat, n: nat, w: ClientWrite)
    requires Account(b, kept, written, c, n) && b.end < w.chunk < |b.logs|
    ensures Account(Add(b, w), kept, written + {w.rec.key}, c, n)
  {
    hide SurvivorsIn, SurvivorsBefore, Of, Thinned, Flat;
    var b' := Add(b, w);
    assert b'.logs[b.begin..c] == b.logs[b.begin..c] && b'.logs[c][..n] == b.logs[c][..n];
    assert w.rec.key in written + {w.rec.key};
    forall k | k !in written + {w.rec.key}
      ensures Of(kept, k) == Of(Survivors(b', c, n), k)
    {
      SurvivorsBeforeOther(b, w, c, k);
      SurvivorsInOther(b, w, c, n, k);
      OfConcat(SurvivorsBefore(b, c), SurvivorsIn(b, c, n), k);
      OfConcat(SurvivorsBefore(b', c), SurvivorsIn(b', c, n), k);
    }
  }
}
