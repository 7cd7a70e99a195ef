/**
  Logs cut into pieces: the records of a bucket in chunks, the writes of a chunk in
  splits. Reading the pieces in order gives the log.
*/
module Logs {
  import opened Bytes

  function Flat<T>(ls: seq<seq<T>>): seq<T> {
    if ls == [] then [] else Flat(ls[..|ls| - 1]) + ls[|ls| - 1]
  }

  lemma FlatNil<T>()
    ensures Flat<T>([]) == []
  {
  }

  lemma FlatSnoc<T>(ls: seq<seq<T>>, l: seq<T>)
    ensures Flat(ls + [l]) == Flat(ls) + l
  {
    assert (ls + [l])[..|ls|] == ls;
  }

  lemma FlatNext<T>(ls: seq<seq<T>>, n: nat)
    requires n < |ls|
    ensures Flat(ls[..n + 1]) == Flat(ls[..n]) + ls[n]
  {
    assert ls[..n + 1][..n] == ls[..n];
  }

  /** Empty pieces do not matter. */
  lemma {:induction false} FlatTail<T>(ls: seq<seq<T>>, n: nat, m: nat)
    requires n <= m <= |ls| && forall c :: n <= c < m ==> ls[c] == []
    ensures Flat(ls) == Flat(ls[..n]) + Flat(ls[m..])
    decreases |ls|
  {
    var last := |ls| - 1;
    if m < |ls| {
      FlatTail(ls[..last], n, m);
      assert ls[..last][..n] == ls[..n] && ls[..last][m..] == ls[m..last];
      assert ls[m..][..last - m] == ls[m..last];
      ConcatAssoc(Flat(ls[..n]), Flat(ls[m..last]), ls[last]);
    } else if n < |ls| {
      FlatTail(ls[..last], n, last);
      assert ls[..last][..n] == ls[..n] && ls[..last][last..] == [] == ls[m..];
    } else {
      assert ls[..n] == ls && ls[m..] == [];
    }
  }

  lemma FlatCut<T>(ls: seq<seq<T>>, n: nat)
    requires n <= |ls|
    ensures Flat(ls) == Flat(ls[..n]) + Flat(ls[n..])
  {
    FlatTail(ls, n, n);
  }

  /** An addition to the last piece that is not empty adds to the log. */
  lemma FlatExtend<T>(ls: seq<seq<T>>, c: nat, x: T)
    requires c < |ls| && forall d :: c < d < |ls| ==> ls[d] == []
    ensures Flat(ls[c := ls[c] + [x]]) == Flat(ls) + [x]
  {
    var ls' := ls[c := ls[c] + [x]];
    hide Flat;
    FlatTail(ls, c + 1, |ls|);
    FlatTail(ls', c + 1, |ls|);
    FlatNext(ls, c);
    FlatNext(ls', c);
    FlatNil<T>();
    assert ls'[..c] == ls[..c] && ls[|ls|..] == ls'[|ls|..] == [];
    assert Flat(ls[..c + 1]) + [] == Flat(ls[..c + 1]) && Flat(ls'[..c + 1]) + [] == Flat(ls'[..c + 1]);
    ConcatAssoc(Flat(ls[..c]), ls[c], [x]);
  }

  lemma {:induction false} InFlat<T>(ls: seq<seq<T>>, c: nat, x: T)
    requires c < |ls| && x in ls[c]
    ensures x in Flat(ls)
  {
    if c < |ls| - 1 {
      InFlat(ls[..|ls| - 1], c, x);
    }
  }
}
