/**
  Index items, one per record written, and the orders the index files use.
*/
module HintItems {
  import opened Bytes

  type Key = seq<byte>

  datatype HintItem = HintItem(hash: u64, chunk: nat, offset: u32, ver: i32, vhash: u16, key: Key)

  // ----- the order of strings

  predicate KeyLess(a: Key, b: Key) {
    if b == [] then false
    else if a == [] then true
    else if a[0] != b[0] then a[0] < b[0]
    else KeyLess(a[1..], b[1..])
  }

  /** At place i, after i equal bytes, a ends first or has the smaller byte. */
  ghost predicate LessAt(a: Key, b: Key, i: nat) {
    i <= |a| && i < |b| && a[..i] == b[..i] && (i == |a| || a[i] < b[i])
  }

  lemma FirstEqual(a: Key, b: Key, i: nat)
    requires i <= |a| && i <= |b| && a[..i] == b[..i]
    ensures i > 0 ==> a[0] == b[0]
  {
    if i > 0 {
      assert a[..i][0] == a[0] && b[..i][0] == b[0];
    }
  }

  /** Strings are ordered by the first byte that differs, a prefix before its extension. */
  lemma {:induction false} KeyLessIs(a: Key, b: Key)
    ensures KeyLess(a, b) <==> exists i: nat :: LessAt(a, b, i)
  {
    if a == [] || b == [] || a[0] != b[0] {
      if KeyLess(a, b) {
        assert LessAt(a, b, 0);
      }
      forall i: nat | LessAt(a, b, i)
        ensures i == 0
      {
        FirstEqual(a, b, i);
      }
    } else {
      KeyLessIs(a[1..], b[1..]);
      forall i: nat
        ensures LessAt(a, b, i + 1) <==> LessAt(a[1..], b[1..], i)
      {
        if i < |a| && i < |b| {
          assert a[..i + 1] == [a[0]] + a[1..][..i] && b[..i + 1] == [b[0]] + b[1..][..i];
          assert a[1..][..i] == a[..i + 1][1..] && b[1..][..i] == b[..i + 1][1..];
        }
      }
      if exists i: nat :: LessAt(a, b, i) {
        var i: nat :| LessAt(a, b, i);
        assert i > 0 && LessAt(a[1..], b[1..], i - 1);
      }
      if exists i: nat :: LessAt(a[1..], b[1..], i) {
        var i: nat :| LessAt(a[1..], b[1..], i);
        assert LessAt(a, b, i + 1);
      }
    }
  }

  lemma {:induction false} KeyLessTrans(a: Key, b: Key, c: Key)
    requires KeyLess(a, b) && KeyLess(b, c)
    ensures KeyLess(a, c)
  {
    if a != [] && a[0] == b[0] == c[0] {
      KeyLessTrans(a[1..], b[1..], c[1..]);
    }
  }

  lemma {:induction false} KeyLessTotal(a: Key, b: Key)
    ensures a == b || KeyLess(a, b) || KeyLess(b, a)
    ensures KeyLess(a, b) ==> a != b && !KeyLess(b, a)
  {
    if a != [] && b != [] {
      KeyLessTotal(a[1..], b[1..]);
      assert a == [a[0]] + a[1..] && b == [b[0]] + b[1..];
    }
  }

  // ----- the order of items

  predicate SameId(a: HintItem, b: HintItem) {
    a.hash == b.hash && a.key == b.key
  }

  /** byKeyHash.Less: by hash, then by key. */
  predicate Less(a: HintItem, b: HintItem) {
    if a.hash < b.hash then true
    else if a.hash > b.hash then false
    else KeyLess(a.key, b.key)
  }

  lemma LessTrans(a: HintItem, b: HintItem, c: HintItem)
    requires Less(a, b) && Less(b, c)
    ensures Less(a, c)
  {
    if a.hash == b.hash == c.hash {
      KeyLessTrans(a.key, b.key, c.key);
    }
  }

  lemma LessTotal(a: HintItem, b: HintItem)
    ensures SameId(a, b) || Less(a, b) || Less(b, a)
    ensures Less(a, b) ==> !SameId(a, b) && !Less(b, a)
  {
    KeyLessTotal(a.key, b.key);
  }

  ghost predicate Sorted(s: seq<HintItem>) {
    forall i, j :: 0 <= i < j < |s| ==> Less(s[i], s[j])
  }

  // ----- what a sequence of writes says about a key

  predicate Is(it: HintItem, h: u64, k: Key) {
    it.hash == h && it.key == k
  }

  /** The last item written for a key. */
  function Last(s: seq<HintItem>, h: u64, k: Key): (r: Option<HintItem>)
    ensures r.Some? ==> r.value in s && Is(r.value, h, k)
  {
    if s == [] then None
    else if Is(s[|s| - 1], h, k) then Some(s[|s| - 1])
    else Last(s[..|s| - 1], h, k)
  }

  lemma {:induction false} LastConcat(a: seq<HintItem>, b: seq<HintItem>, h: u64, k: Key)
    ensures Last(a + b, h, k) == if Last(b, h, k).Some? then Last(b, h, k) else Last(a, h, k)
  {
    if b == [] {
      assert a + b == a;
    } else {
      var m := |b| - 1;
      LastConcat(a, b[..m], h, k);
      assert (a + b)[..|a| + m] == a + b[..m];
    }
  }

  lemma LastSnoc(s: seq<HintItem>, it: HintItem, h: u64, k: Key)
    ensures Last(s + [it], h, k) == if Is(it, h, k) then Some(it) else Last(s, h, k)
  {
    assert (s + [it])[..|s|] == s;
  }

  lemma {:induction false} LastHas(s: seq<HintItem>, it: HintItem)
    requires it in s
    ensures Last(s, it.hash, it.key).Some?
  {
    var m := |s| - 1;
    if s[m] != it {
      assert s == s[..m] + [s[m]];
      LastHas(s[..m], it);
    }
  }

  /** The last item written under a hash, for whichever key. */
  function LastHash(s: seq<HintItem>, h: u64): (r: Option<HintItem>)
    ensures r.Some? ==> r.value in s && r.value.hash == h
  {
    if s == [] then None
    else if s[|s| - 1].hash == h then Some(s[|s| - 1])
    else LastHash(s[..|s| - 1], h)
  }

  lemma LastHashSnoc(s: seq<HintItem>, it: HintItem, h: u64)
    ensures LastHash(s + [it], h) == if it.hash == h then Some(it) else LastHash(s, h)
  {
    assert (s + [it])[..|s|] == s;
  }

  lemma {:induction false} LastHashHas(s: seq<HintItem>, it: HintItem)
    requires it in s
    ensures LastHash(s, it.hash).Some?
  {
    var m := |s| - 1;
    if s[m] != it {
      assert s == s[..m] + [s[m]];
      LastHashHas(s[..m], it);
    }
  }
}
