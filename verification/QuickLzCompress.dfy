/**
  The compressor. Both levels scan the source once; level 3 keeps sixteen
  candidate positions per hash, level 1 keeps one and transmits the hash itself.
*/
module QuickLzCompress {
  import opened Bytes
  import opened Bits
  import opened QuickLzFormat
  import opened QuickLzGreedy
  import opened QuickLzWriter

  // ----- facts about windows and repeats

  function Three(a: int, b: int, c: int): int {
    a + 256 * b + 65536 * c
  }

  lemma WindowBytes(s: seq<byte>, q: nat)
    requires q + 3 <= |s|
    ensures Window(s, q) == Three(s[q], s[q + 1], s[q + 2])
  {
    var w := s[q..q + 3];
    assert w[1..] == [s[q + 1], s[q + 2]];
    assert w[1..][1..] == [s[q + 2]];
    assert w[1..][1..][1..] == [];
    assert Val([s[q + 2]]) == s[q + 2] + 256 * Val([]) by { assert [s[q + 2]][1..] == []; }
    assert Val([s[q + 1], s[q + 2]]) == s[q + 1] + 256 * Val([s[q + 2]]);
  }

  lemma SameWindow(s: seq<byte>, q: nat, p: nat)
    requires q < p && p + 3 <= |s| && Window(s, q) == Window(s, p)
    ensures Repeats(s, q, p, 3)
  {
    LEVal(s[q..q + 3]);
    LEVal(s[p..p + 3]);
    forall k | p <= k < p + 3
      ensures s[k] == s[k - p + q]
    {
      assert s[k] == s[p..p + 3][k - p] && s[k - p + q] == s[q..q + 3][k - p];
    }
  }

  lemma LitOk(level: nat, s: seq<byte>, ts: seq<Token>)
    requires Span(ts) < |s|
    ensures TokenOk(level, s, ts, Lit(s[Span(ts)]))
  {
  }

  /** A repeat at distance one is a run, so it is also a repeat at distance three
      when the two bytes before continue the run. */
  lemma {:induction false} RunShift(s: seq<byte>, p: nat, len: nat)
    requires p >= 3 && Repeats(s, p - 1, p, len) && len >= 1
    requires s[p] == s[p - 3] == s[p - 2] == s[p - 1]
    ensures forall k :: p <= k < p + len ==> s[k] == s[p]
    ensures Repeats(s, p - 3, p, len)
  {
    if len > 1 {
      RunShift(s, p, len - 1);
      assert s[p + len - 1] == s[p + len - 2];
    }
  }

  // ----- facts about token starts

  lemma LastStartSnoc(s: seq<byte>, ts: seq<Token>, t: Token, b: int, h: nat)
    ensures LastStart(s, ts + [t], b, h) ==
            if Span(ts) <= b && Span(ts) + 3 <= |s| && Hash(Window(s, Span(ts))) == h then Span(ts)
            else LastStart(s, ts, b, h)
  {
    assert (ts + [t])[..|ts|] == ts;
  }

  /** A bound above the last start with this hash does not matter. */
  lemma {:induction false} LastStartBound(s: seq<byte>, ts: seq<Token>, b: int, h: nat)
    requires LastStart(s, ts, |s|, h) <= b
    ensures LastStart(s, ts, b, h) == LastStart(s, ts, |s|, h)
  {
    if ts != [] {
      var q := Span(ts[..|ts| - 1]);
      if !(q + 3 <= |s| && Hash(Window(s, q)) == h) {
        LastStartBound(s, ts[..|ts| - 1], b, h);
      }
    }
  }

  /** After three literals the third-last token start is three bytes back. */
  lemma ThreeLits(s: seq<byte>, ts: seq<Token>, h: nat)
    requires LitRun(ts) >= 3 && Span(ts) <= |s|
    requires Span(ts) >= 3 ==> Hash(Window(s, Span(ts) - 3)) == h
    ensures Span(ts) >= 3 && LastStart(s, ts, Span(ts) - 3, h) == Span(ts) - 3
  {
    var n := |ts|;
    var a, b, c := ts[..n - 1], ts[..n - 2], ts[..n - 3];
    assert a[..n - 2] == b && b[..n - 3] == c;
    assert LitRun(a) >= 2 && LitRun(b) >= 1;
    assert Span(a) == Span(ts) - 1 && Span(b) == Span(ts) - 2 && Span(c) == Span(ts) - 3;
    var bound := Span(ts) - 3;
    assert LastStart(s, b, bound, h) == Span(c);
    assert LastStart(s, a, bound, h) == LastStart(s, b, bound, h);
  }

  // ----- level 1

  ghost predicate SlotOk(s: seq<byte>, ts: seq<Token>, h: nat, pos: nat, window: nat, count: nat) {
    var q := LastStart(s, ts, |s|, h);
    if count == 0 then q == -1 else q >= 0 && pos == q && window == Window(s, q)
  }

  /** The slot of every hash holds the last token start with that hash, and the
      window that was there. */
  ghost predicate Tables1(s: seq<byte>, ts: seq<Token>, tab: seq<nat>, cache: seq<nat>, counter: seq<nat>) {
    && |tab| == |cache| == |counter| == HASH_VALUES
    && forall h :: 0 <= h < HASH_VALUES ==> SlotOk(s, ts, h, tab[h], cache[h], counter[h])
  }

  lemma Tables1Empty(s: seq<byte>, tab: seq<nat>, cache: seq<nat>, counter: seq<nat>)
    requires |tab| == |cache| == |counter| == HASH_VALUES
    requires forall h :: 0 <= h < HASH_VALUES ==> counter[h] == 0
    ensures Tables1(s, [], tab, cache, counter)
  {
  }

  lemma Tables1Snoc(s: seq<byte>, ts: seq<Token>, t: Token,
                    tab: seq<nat>, cache: seq<nat>, counter: seq<nat>, h0: nat, count: nat)
    requires Tables1(s, ts, tab, cache, counter) && count != 0
    requires Span(ts) + 3 <= |s| && h0 == Hash(Window(s, Span(ts)))
    ensures Tables1(s, ts + [t], tab[h0 := Span(ts)], cache[h0 := Window(s, Span(ts))], counter[h0 := count])
  {
    var tab', cache', counter' := tab[h0 := Span(ts)], cache[h0 := Window(s, Span(ts))], counter[h0 := count];
    hide LastStart, Window, Span, Hash;
    forall h | 0 <= h < HASH_VALUES
      ensures SlotOk(s, ts + [t], h, tab'[h], cache'[h], counter'[h])
    {
      LastStartSnoc(s, ts, t, |s|, h);
      assert SlotOk(s, ts, h, tab[h], cache[h], counter[h]);
    }
  }

  /** Every token start lies below the span. */
  lemma {:induction false} StartsBelow(level: nat, s: seq<byte>, ts: seq<Token>, b: int, h: nat)
    requires Describes(level, s, ts)
    ensures LastStart(s, ts, b, h) < Span(ts) || LastStart(s, ts, b, h) == -1
  {
    if ts != [] {
      StartsBelow(level, s, ts[..|ts| - 1], b, h);
    }
  }

  /** Length of the match of src with the earlier position o. */
  method Extend1(s: seq<byte>, o: nat, src: nat) returns (m: nat)
    requires src + 11 <= |s| && Repeats(s, o, src, 3)
    ensures 3 <= m <= 255 && src + m + UNCOMPRESSED_END <= |s|
    ensures Repeats(s, o, src, m)
    ensures m < 255 && src + m + UNCOMPRESSED_END < |s| ==> s[o + m] != s[src + m]
  {
    hide Repeats;
    Earlier(s, o, src, 3);
    if s[o + 3] != s[src + 3] {
      return 3;
    }
    var remaining := if |s| - UNCOMPRESSED_END - src <= 255 then |s| - UNCOMPRESSED_END - src else 255;
    OneFurther(s, o, src, 3);
    m := 4;
    if s[o + 4] == s[src + 4] {
      OneFurther(s, o, src, 4);
      m := 5;
      if s[o + 5] == s[src + 5] {
        OneFurther(s, o, src, 5);
        m := 6;
        while s[o + m] == s[src + m] && m < remaining
          invariant 6 <= m <= remaining && Repeats(s, o, src, m)
        {
          OneFurther(s, o, src, m);
          m := m + 1;
        }
      }
    }
  }

  lemma Earlier(s: seq<byte>, o: nat, src: nat, m: nat)
    requires Repeats(s, o, src, m)
    ensures o < src
  {
  }

  lemma OneFurther(s: seq<byte>, o: nat, src: nat, m: nat)
    requires Repeats(s, o, src, m) && src + m < |s| && o + m < |s| && s[o + m] == s[src + m]
    ensures Repeats(s, o, src, m + 1)
  {
  }

  /** The level-1 match test: same window, and either far enough back or inside a
      run that is at least three literals old. */
  predicate Matches1(s: seq<byte>, src: nat, o: nat, sameWindow: bool, count: nat, lits: nat)
    requires src + 3 <= |s|
  {
    && sameWindow && count != 0
    && (src - o > MINOFFSET || (
       && src == o + 1 && lits >= 3 && src > 3
       && s[src] == s[src - 3] && s[src] == s[src - 2] && s[src] == s[src - 1]
       && s[src] == s[src + 1] && s[src] == s[src + 2]))
  }

  /** Whatever the encoder matched against, the reference the decoder resolves
      three bytes late repeats the same bytes. */
  lemma Ref1Ok(s: seq<byte>, ts: seq<Token>, h: nat, o: nat, lits: nat, m: nat)
    requires Span(ts) + 11 <= |s| && h == Hash(Window(s, Span(ts)))
    requires lits == LitRun(ts) && o == LastStart(s, ts, |s|, h)
    requires Window(s, o) == Window(s, Span(ts)) && o < Span(ts)
    requires Matches1(s, Span(ts), o, true, 1, lits)
    requires 3 <= m <= 255 && Span(ts) + m + UNCOMPRESSED_END <= |s| && Repeats(s, o, Span(ts), m)
    ensures TokenOk(1, s, ts, Ref(m, h))
  {
    var p := Span(ts);
    if p - o > MINOFFSET {
      LastStartBound(s, ts, p - 3, h);
    } else {
      RunShift(s, p, m);
      WindowBytes(s, p);
      WindowBytes(s, p - 3);
      ThreeLits(s, ts, h);
    }
  }

  /** The match test asks whether the last token start with this hash will do. */
  lemma Matches1Is(s: seq<byte>, ts: seq<Token>, h: nat, o: nat, window: nat, count: nat, lits: nat)
    requires MayMatch(s, Span(ts)) && h == Hash(Window(s, Span(ts))) && lits == LitRun(ts)
    requires SlotOk(s, ts, h, o, window, count)
    ensures var q := LastStart(s, ts, |s|, h);
            && (Matches1(s, Span(ts), o, window == Window(s, Span(ts)), count, lits) <==> Matchable(s, ts, Span(ts), q))
            && (Matchable(s, ts, Span(ts), q) ==>
                  && o == q && count != 0 && Window(s, o) == Window(s, Span(ts))
                  && Matches1(s, Span(ts), o, true, 1, lits))
  {
    hide Span, Window, Hash, LastStart, LitRun;
  }

  /** A match that cannot be extended is the longest. */
  lemma LongestIs(s: seq<byte>, o: nat, src: nat, m: nat)
    requires 3 <= m <= Limit(s, src) && Repeats(s, o, src, m) && (m < Limit(s, src) ==> s[o + m] != s[src + m])
    ensures Longest(s, o, src, m)
  {
    forall x: nat | x <= Limit(s, src) && Repeats(s, o, src, x)
      ensures x <= m
    {
      if m < x {
        RepeatsAt(s, o, src, x, m);
      }
    }
  }

  lemma Greedy1Is(s: seq<byte>, ts: seq<Token>, t: Token)
    requires MayMatch(s, Span(ts)) && Greedy1(s, ts, t)
    ensures Greedy(1, s, ts, t)
  {
  }

  lemma SlideWindow(s: seq<byte>, q: nat)
    requires q + 4 <= |s|
    ensures Window(s, q) / 256 % 65536 + (s[q + 3] as int) * 65536 == Window(s, q + 1)
  {
    WindowBytes(s, q);
    WindowBytes(s, q + 1);
  }

  method PutLit(w: Writer, b: byte)
    requires w.Valid() && |w.cur| < GROUP && w.dst + 1 <= w.buf.Length
    modifies w`dst, w`cwordVal, w`cur, w.buf
    ensures w.Valid() && w.cur == old(w.cur) + [Lit(b)] && w.dst == old(w.dst) + 1
    ensures w.Tokens() == old(w.Tokens()) + [Lit(b)]
  {
    assert LE(b, 1) == [b] + LE(b / 256, 0);
    w.Put(b, 1, false, Lit(b));
  }

  method PutRef1(w: Writer, hash: nat, m: nat)
    requires w.Valid() && |w.cur| < GROUP && w.dst + 4 <= w.buf.Length && w.level == 1
    requires 3 <= m <= 255
    modifies w`dst, w`cwordVal, w`cur, w.buf
    ensures w.Valid() && w.cur == old(w.cur) + [Ref(m, hash)]
    ensures w.Tokens() == old(w.Tokens()) + [Ref(m, hash)]
    ensures w.dst <= old(w.dst) + 3
  {
    hide Open, Shifted, LE;
    if m < 18 {
      w.Put(hash * 16 + (m - 2), 2, true, Ref(m, hash));
    } else {
      w.Put(hash * 16 + m * 65536, 3, true, Ref(m, hash));
    }
  }

  method Step1(s: seq<byte>, w: Writer, tab: array<nat>, cache: array<nat>, counter: array<nat>,
               src: nat, lits: nat, fetch: nat)
    returns (src': nat, lits': nat, fetch': nat)
    requires tab != cache && tab != counter && cache != counter && w.level == 1
    requires w.Valid() && |w.cur| < GROUP && w.dst + 4 <= w.buf.Length
    requires src + 11 <= |s| && fetch == Window(s, src)
    requires Describes(1, s, w.Tokens()) && Span(w.Tokens()) == src
    requires Tables1(s, w.Tokens(), tab[..], cache[..], counter[..]) && lits == LitRun(w.Tokens())
    requires Parsed(1, s, w.Tokens())
    modifies w`dst, w`cwordVal, w`cur, w.buf, tab, cache, counter
    ensures w.Valid() && |w.cur| == |old(w.cur)| + 1
    ensures w.dst <= old(w.dst) + 4 && w.dst - old(w.dst) <= src' - src
    ensures src < src' && src' + UNCOMPRESSED_END <= |s| && fetch' == Window(s, src')
    ensures Describes(1, s, w.Tokens()) && Span(w.Tokens()) == src'
    ensures Tables1(s, w.Tokens(), tab[..], cache[..], counter[..]) && lits' == LitRun(w.Tokens())
    ensures Parsed(1, s, w.Tokens()) && w.Tokens()[..|old(w.Tokens())|] == old(w.Tokens())
  {
    hide Describes, LastStart, Span, Val, Hash, Open, Shifted, TokenOk, Parsed, Greedy, LitRun, Matchable, Longest,
      Matches1, Repeats;
    ghost var ts := w.Tokens();
    var hash := Hash(fetch);
    var o := tab[hash];
    var same := cache[hash] == fetch;
    assert SlotOk(s, ts, hash, tab[..][hash], cache[..][hash], counter[..][hash]);
    Matches1Is(s, ts, hash, o, cache[hash], counter[hash], lits);
    cache[hash] := fetch;
    tab[hash] := src;
    var m: nat := 0;
    ghost var t: Token;
    if Matches1(s, src, o, same, counter[hash], lits) {
      StartsBelow(1, s, ts, |s|, hash);
      SameWindow(s, o, src);
      m := Extend1(s, o, src);
      LongestIs(s, o, src, m);
      Ref1Ok(s, ts, hash, o, lits, m);
      t := Ref(m, hash);
      PutRef1(w, hash, m);
      src' := src + m;
      lits' := 0;
      fetch' := FastRead(s, src', 3);
    } else {
      lits' := lits + 1;
      counter[hash] := 1;
      t := Lit(s[src]);
      LitOk(1, s, ts);
      PutLit(w, s[src]);
      src' := src + 1;
      SlideWindow(s, src);
      fetch' := fetch / 256 % 65536 + (s[src' + 2] as int) * 65536;
    }
    Greedy1Is(s, ts, t);
    ParsedSnoc(1, s, ts, t);
    LitRunSnoc(ts, t);
    Tables1Snoc(s, ts, t, old(tab[..]), old(cache[..]), old(counter[..]), hash, counter[hash]);
    DescribesSnoc(1, s, ts, t);
    assert tab[..] == old(tab[..])[hash := src];
    assert cache[..] == old(cache[..])[hash := fetch];
    assert counter[..] == old(counter[..])[hash := counter[hash]];
  }

  lemma LitRunSnoc(ts: seq<Token>, t: Token)
    ensures LitRun(ts + [t]) == if t.Lit? then LitRun(ts) + 1 else 0
  {
    assert (ts + [t])[..|ts|] == ts;
  }

  // ----- level 3

  /** A slot remembers the last sixteen of the places it was given, in a ring, and counts
      them in a byte. */
  ghost predicate Slot3(seen: seq<nat>, slot: seq<nat>, count: nat) {
    && |slot| == POINTERS_3 && count == |seen| % 256
    && forall j :: 0 <= j < |seen| && |seen| - POINTERS_3 <= j ==> slot[j % POINTERS_3] == seen[j]
  }

  ghost function SlotOf(tab: array2<nat>, h: nat): (slot: seq<nat>)
    reads tab
    requires tab.Length1 == POINTERS_3 && h < tab.Length0
    ensures |slot| == POINTERS_3
  {
    seq(POINTERS_3, k requires 0 <= k < POINTERS_3 reads tab => tab[h, k])
  }

  /** All places before n are in the slots of their hashes; every slot entry can be compared
      with three source bytes. */
  ghost predicate Table3(s: seq<byte>, n: nat, tab: array2<nat>, counter: array<nat>)
    reads tab, counter
  {
    && tab.Length0 == HASH_VALUES && tab.Length1 == POINTERS_3
    && counter.Length == HASH_VALUES && n + 2 <= |s|
    && (forall h, k :: 0 <= h < HASH_VALUES && 0 <= k < POINTERS_3 ==> tab[h, k] + 4 <= |s|)
    && (forall h :: 0 <= h < HASH_VALUES ==> Slot3(Seen(s, n, h), SlotOf(tab, h), counter[h]))
  }

  /** Which of n places entry k of a ring holds, if the search looks at it. */
  lemma RingPlace(n: nat, k: nat) returns (j: nat)
    requires k < POINTERS_3 && k < n % 256
    ensures n - Remembered(n) <= j < n && j % POINTERS_3 == k
  {
    if n % 256 < POINTERS_3 {
      j := n - n % 256 + k;
      assert j == 16 * (n / 256) * 16 + k;
      DivMod(j, 16 * (n / 256), 16, k);
    } else {
      j := n - 1 - (n - 1 - k) % POINTERS_3;
      DivMod(j, (n - 1 - k) / 16, 16, k);
    }
  }

  lemma RingEntry(n: nat, j: nat)
    requires n - Remembered(n) <= j < n
    ensures j % POINTERS_3 < n % 256 && n - POINTERS_3 <= j
  {
    if n % 256 < POINTERS_3 {
      var i := j - (n - n % 256);
      assert j == 16 * (16 * (n / 256)) + i;
      DivMod(j, 16 * (n / 256), 16, i);
    }
  }

  /** Of the places given to a slot, those in the entries the search looks at are the last
      that count as remembered. */
  lemma SlotHolds(seen: seq<nat>, slot: seq<nat>, count: nat, recent: seq<nat>)
    requires Slot3(seen, slot, count) && recent == seen[|seen| - Remembered(|seen|)..]
    ensures forall k :: 0 <= k < POINTERS_3 && k < count ==> slot[k] in recent
    ensures forall o :: o in recent ==> exists k :: 0 <= k < POINTERS_3 && k < count && slot[k] == o
  {
    hide Remembered;
    var n, r := |seen|, Remembered(|seen|);
    forall k | 0 <= k < POINTERS_3 && k < count
      ensures slot[k] in recent
    {
      var j := RingPlace(n, k);
      RingEntry(n, j);
      assert recent[j - (n - r)] == seen[j] == slot[j % POINTERS_3];
    }
    forall o | o in recent
      ensures exists k :: 0 <= k < POINTERS_3 && k < count && slot[k] == o
    {
      var i :| 0 <= i < |recent| && recent[i] == o;
      var j := n - r + i;
      RingEntry(n, j);
      assert seen[j] == o && slot[j % POINTERS_3] == o;
    }
  }

  lemma RingNext(n: nat, count: nat)
    requires count == n % 256
    ensures count % 16 == n % 16 && (count + 1) % 256 == (n + 1) % 256
  {
    DivMod(n, 16 * (n / 256) + count / 16, 16, count % 16);
    DivMod(n + 1, n / 256 + (count + 1) / 256, 256, (count + 1) % 256);
  }

  lemma RingApart(j: nat, n: nat)
    requires j < n < j + 16
    ensures j % 16 != n % 16
  {
    assert n - j == 16 * (n / 16 - j / 16) + (n % 16 - j % 16);
  }

  lemma Slot3Snoc(seen: seq<nat>, slot: seq<nat>, count: nat, p: nat)
    requires Slot3(seen, slot, count)
    ensures Slot3(seen + [p], slot[count % POINTERS_3 := p], (count + 1) % 256)
  {
    var n := |seen|;
    RingNext(n, count);
    var seen', slot' := seen + [p], slot[count % POINTERS_3 := p];
    forall j | 0 <= j < n + 1 && n + 1 - POINTERS_3 <= j
      ensures slot'[j % POINTERS_3] == seen'[j]
    {
      if j < n {
        RingApart(j, n);
      }
    }
  }

  /** Length of the match of src with the candidate o, not beyond `remaining`. */
  method Extend3(s: seq<byte>, o: nat, src: nat, remaining: nat) returns (m: nat)
    requires src + remaining < |s| && 3 <= remaining && Repeats(s, o, src, 3)
    ensures 3 <= m <= remaining && Repeats(s, o, src, m)
    ensures m < remaining ==> s[o + m] != s[src + m]
  {
    m := 3;
    while s[o + m] == s[src + m] && m < remaining
      invariant 3 <= m <= remaining && Repeats(s, o, src, m)
    {
      m := m + 1;
    }
  }

  /** No match of src with o is longer than the chosen one, nor as long and nearer. */
  ghost predicate Beaten(s: seq<byte>, o: nat, src: nat, remaining: nat, matchlen: nat, offset: nat) {
    forall m :: 3 <= m <= remaining && o + MINOFFSET < src && Repeats(s, o, src, m) ==>
      m < matchlen || (m == matchlen && o <= offset)
  }

  lemma StillBeaten(s: seq<byte>, o: nat, src: nat, remaining: nat, matchlen: nat, offset: nat, matchlen': nat,
                    offset': nat)
    requires Beaten(s, o, src, remaining, matchlen, offset)
    requires matchlen' > matchlen || (matchlen' == matchlen && offset' > offset)
    ensures Beaten(s, o, src, remaining, matchlen', offset')
  {
    hide Repeats;
  }

  /** The longest, and among equals the nearest, of the candidates in a slot. */
  method Search3(s: seq<byte>, tab: array2<nat>, counter: array<nat>, src: nat, hash: nat, remaining: nat)
    returns (matchlen: nat, offset: nat)
    requires Table3(s, src, tab, counter) && hash < HASH_VALUES
    requires src + 11 <= |s| && src + remaining < |s| && 3 <= remaining
    ensures matchlen == 0 || (3 <= matchlen <= remaining && offset + MINOFFSET < src
            && Repeats(s, offset, src, matchlen))
    ensures matchlen != 0 ==> exists j :: 0 <= j < POINTERS_3 && j < counter[hash] && tab[hash, j] == offset
    ensures forall j :: 0 <= j < POINTERS_3 && j < counter[hash] ==>
            Beaten(s, tab[hash, j], src, remaining, matchlen, offset)
  {
    hide Beaten, Seen, Slot3;
    var c := counter[hash];
    matchlen, offset := 0, 0;
    var k := 0;
    while k < POINTERS_3 && c > k
      invariant 0 <= k <= POINTERS_3
      invariant matchlen == 0 || (3 <= matchlen <= remaining && offset + MINOFFSET < src
                && Repeats(s, offset, src, matchlen))
      invariant matchlen != 0 ==> exists j :: 0 <= j < k && j < c && tab[hash, j] == offset
      invariant forall j :: 0 <= j < k ==> Beaten(s, tab[hash, j], src, remaining, matchlen, offset)
    {
      var o := tab[hash, k];
      if s[src] == s[o] && s[src + 1] == s[o + 1] && s[src + 2] == s[o + 2] && o < src - MINOFFSET {
        var m := Extend3(s, o, src, remaining);
        LongestHere(s, o, src, remaining, m, matchlen, offset);
        if m > matchlen || (m == matchlen && o > offset) {
          forall j | 0 <= j < k
            ensures Beaten(s, tab[hash, j], src, remaining, m, o)
          {
            StillBeaten(s, tab[hash, j], src, remaining, matchlen, offset, m, o);
          }
          offset, matchlen := o, m;
        }
      } else {
        NoMatch(s, o, src, remaining, matchlen, offset);
      }
      k := k + 1;
    }
  }

  lemma LongestHere(s: seq<byte>, o: nat, src: nat, remaining: nat, m: nat, matchlen: nat, offset: nat)
    requires src + remaining < |s| && m <= remaining && o + m < |s| && (m < remaining ==> s[o + m] != s[src + m])
    ensures m > matchlen || (m == matchlen && o > offset) ==> Beaten(s, o, src, remaining, m, o)
    ensures !(m > matchlen || (m == matchlen && o > offset)) ==> Beaten(s, o, src, remaining, matchlen, offset)
  {
    forall x | 3 <= x <= remaining && Repeats(s, o, src, x)
      ensures x <= m
    {
      if m < x {
        RepeatsAt(s, o, src, x, m);
      }
    }
  }

  lemma RepeatsAt(s: seq<byte>, o: nat, src: nat, n: nat, k: nat)
    requires Repeats(s, o, src, n) && k < n
    ensures s[src + k] == s[o + k]
  {
    assert s[src + k] == s[src + k - src + o];
  }

  lemma NoMatch(s: seq<byte>, o: nat, src: nat, remaining: nat, matchlen: nat, offset: nat)
    requires src + 3 <= |s| && o + 3 <= |s|
    requires !(s[src] == s[o] && s[src + 1] == s[o + 1] && s[src + 2] == s[o + 2] && o < src - MINOFFSET)
    ensures Beaten(s, o, src, remaining, matchlen, offset)
  {
    forall m | 3 <= m && Repeats(s, o, src, m)
      ensures s[src] == s[o] && s[src + 1] == s[o + 1] && s[src + 2] == s[o + 2]
    {
      RepeatsAt(s, o, src, m, 0);
      RepeatsAt(s, o, src, m, 1);
      RepeatsAt(s, o, src, m, 2);
    }
  }

  /** Remembers position p in the slot of its window. */
  method Insert3(s: seq<byte>, tab: array2<nat>, counter: array<nat>, p: nat)
    requires Table3(s, p, tab, counter) && p + 4 <= |s|
    modifies tab, counter
    ensures Table3(s, p + 1, tab, counter)
  {
    hide Hash, Window, Slot3, Seen;
    var fetch := FastRead(s, p, 3);
    var hash := Hash(fetch);
    FetchIs(s, p, fetch);
    var c := counter[hash];
    assert Slot3(Seen(s, p, hash), SlotOf(tab, hash), c);
    tab[hash, c % POINTERS_3] := p;
    counter[hash] := (c + 1) % 256;
    forall h | 0 <= h < HASH_VALUES
      ensures Slot3(Seen(s, p + 1, h), SlotOf(tab, h), counter[h])
    {
      SeenNext(s, p, h);
      if h == hash {
        Slot3Snoc(Seen(s, p, h), old(SlotOf(tab, h)), c, p);
        assert SlotOf(tab, h) == old(SlotOf(tab, h))[c % POINTERS_3 := p];
      } else {
        assert SlotOf(tab, h) == old(SlotOf(tab, h));
        assert old(Slot3(Seen(s, p, h), SlotOf(tab, h), counter[h]));
      }
    }
  }

  lemma FetchIs(s: seq<byte>, p: nat, fetch: nat)
    requires p + 3 <= |s| && fetch == Val(s[p..p + 3])
    ensures fetch == Window(s, p)
  {
  }

  lemma SeenNext(s: seq<byte>, p: nat, h: nat)
    requires p + 3 <= |s|
    ensures Seen(s, p + 1, h) == if Hash(Window(s, p)) == h then Seen(s, p, h) + [p] else Seen(s, p, h)
  {
  }

  /** What the search finds is the token that comes next. */
  lemma Greedy3Is(s: seq<byte>, p: nat, slot: seq<nat>, count: nat, matchlen: nat, o: nat)
    requires MayMatch(s, p) && Slot3(Seen(s, p, Hash(Window(s, p))), slot, count)
    requires matchlen != 0 ==> 3 <= matchlen <= Limit(s, p) && o + MINOFFSET < p && Repeats(s, o, p, matchlen)
    requires matchlen != 0 ==> exists k :: 0 <= k < POINTERS_3 && k < count && slot[k] == o
    requires forall k :: 0 <= k < POINTERS_3 && k < count ==> Beaten(s, slot[k], p, Limit(s, p), matchlen, o)
    ensures Greedy3(s, p, if matchlen >= 3 && p - o < MAX_OFFSET then Ref(matchlen, p - o) else Lit(s[p]))
  {
    hide Hash, Window, Slot3, Seen, Repeats, Recent, Limit, Beaten;
    RecentIs(s, p, slot, count);
    forall o': nat, m: nat | Usable(s, p, o') && m <= Limit(s, p) && Repeats(s, o', p, m)
      ensures matchlen != 0 && (m < matchlen || (m == matchlen && o' <= o))
    {
      var k :| 0 <= k < POINTERS_3 && k < count && slot[k] == o';
      LimitIs(s, p);
      BeatenBy(s, o', p, Limit(s, p), matchlen, o, 3);
      BeatenBy(s, o', p, Limit(s, p), matchlen, o, m);
    }
    if matchlen != 0 {
      Shorter(s, o, p, matchlen);
      assert Usable(s, p, o);
      assert Best(s, p, o, matchlen);
    }
  }

  lemma LimitIs(s: seq<byte>, p: nat)
    requires MayMatch(s, p)
    ensures 7 <= Limit(s, p) <= 255
  {
  }

  lemma BeatenBy(s: seq<byte>, o: nat, src: nat, remaining: nat, matchlen: nat, offset: nat, m: nat)
    requires Beaten(s, o, src, remaining, matchlen, offset) && m <= remaining && o + MINOFFSET < src
    requires Repeats(s, o, src, m)
    ensures m >= 3 ==> m < matchlen || (m == matchlen && o <= offset)
  {
    hide Repeats;
  }

  lemma RecentIs(s: seq<byte>, p: nat, slot: seq<nat>, count: nat)
    requires p + 3 <= |s| && Slot3(Seen(s, p, Hash(Window(s, p))), slot, count)
    ensures |slot| == POINTERS_3 && forall k :: 0 <= k < POINTERS_3 && k < count ==> slot[k] in Recent(s, p)
    ensures forall o :: o in Recent(s, p) ==> exists k :: 0 <= k < POINTERS_3 && k < count && slot[k] == o
  {
    hide Hash, Window, Seen;
    SlotHolds(Seen(s, p, Hash(Window(s, p))), slot, count, Recent(s, p));
  }

  lemma Shorter(s: seq<byte>, o: nat, p: nat, m: nat)
    requires Repeats(s, o, p, m) && m >= 3
    ensures Repeats(s, o, p, 3)
  {
  }

  lemma Greedy3Covers(s: seq<byte>, ts: seq<Token>, t: Token)
    requires MayMatch(s, Span(ts)) && Greedy3(s, Span(ts), t)
    ensures Greedy(3, s, ts, t)
  {
  }

  method PutRef3(w: Writer, matchlen: nat, offset: nat)
    requires w.Valid() && |w.cur| < GROUP && w.dst + 4 <= w.buf.Length && w.level == 3
    requires 3 <= matchlen <= 255
    modifies w`dst, w`cwordVal, w`cur, w.buf
    ensures w.Valid() && w.cur == old(w.cur) + [Ref(matchlen, offset)]
    ensures w.Tokens() == old(w.Tokens()) + [Ref(matchlen, offset)]
    ensures w.dst <= old(w.dst) + 4 && w.dst - old(w.dst) <= matchlen
  {
    hide Open, Shifted, LE;
    if matchlen == 3 && offset <= 63 {
      w.Put(offset * 4, 1, true, Ref(matchlen, offset));
    } else if matchlen == 3 && offset <= 16383 {
      w.Put(offset * 4 + 1, 2, true, Ref(matchlen, offset));
    } else if matchlen <= 18 && offset <= 1023 {
      w.Put((matchlen - 3) * 4 + offset * 64 + 2, 2, true, Ref(matchlen, offset));
    } else if matchlen <= 33 {
      w.Put((matchlen - 2) * 4 + offset * 128 + 3, 3, true, Ref(matchlen, offset));
    } else {
      w.Put((matchlen - 3) * 128 + offset * 32768 + 3, 4, true, Ref(matchlen, offset));
    }
  }

  /** The best match of src with a remembered place, if there is one. */
  method Look3(s: seq<byte>, tab: array2<nat>, counter: array<nat>, src: nat) returns (matchlen: nat, o: nat)
    requires Table3(s, src, tab, counter) && MayMatch(s, src)
    ensures matchlen == 0 || (3 <= matchlen <= Limit(s, src) && o + MINOFFSET < src && Repeats(s, o, src, matchlen))
    ensures Greedy3(s, src, if matchlen >= 3 && src - o < MAX_OFFSET then Ref(matchlen, src - o) else Lit(s[src]))
  {
    hide Window, Hash, Greedy3, Beaten, Slot3, Seen, Repeats;
    var fetch := FastRead(s, src, 3);
    var hash := Hash(fetch);
    FetchIs(s, src, fetch);
    var remaining := if |s| - UNCOMPRESSED_END - src <= 255 then |s| - UNCOMPRESSED_END - src else 255;
    matchlen, o := Search3(s, tab, counter, src, hash, remaining);
    ghost var slot := SlotOf(tab, hash);
    assert forall k :: 0 <= k < POINTERS_3 ==> slot[k] == tab[hash, k];
    Greedy3Is(s, src, slot, counter[hash], matchlen, o);
  }

  /** Remembers the places inside a match. */
  method Skip3(s: seq<byte>, tab: array2<nat>, counter: array<nat>, src: nat, matchlen: nat)
    requires 1 <= matchlen && src + matchlen + UNCOMPRESSED_END <= |s| && Table3(s, src + 1, tab, counter)
    modifies tab, counter
    ensures Table3(s, src + matchlen, tab, counter)
  {
    hide Table3;
    for u := 1 to matchlen
      invariant Table3(s, src + u, tab, counter)
    {
      Insert3(s, tab, counter, src + u);
    }
  }

  method Step3(s: seq<byte>, w: Writer, tab: array2<nat>, counter: array<nat>, src: nat) returns (src': nat)
    requires w.level == 3 && Table3(s, src, tab, counter)
    requires w.Valid() && |w.cur| < GROUP && w.dst + 4 <= w.buf.Length
    requires src + 11 <= |s|
    requires Describes(3, s, w.Tokens()) && Span(w.Tokens()) == src && Parsed(3, s, w.Tokens())
    modifies w`dst, w`cwordVal, w`cur, w.buf, tab, counter
    ensures Table3(s, src', tab, counter)
    ensures w.Valid() && |w.cur| == |old(w.cur)| + 1
    ensures w.dst <= old(w.dst) + 4 && w.dst - old(w.dst) <= src' - src
    ensures src < src' && src' + UNCOMPRESSED_END <= |s|
    ensures Describes(3, s, w.Tokens()) && Span(w.Tokens()) == src'
    ensures Parsed(3, s, w.Tokens()) && w.Tokens()[..|old(w.Tokens())|] == old(w.Tokens())
  {
    hide Describes, LastStart, Span, Open, Shifted, Parsed, Greedy, Greedy3, Table3;
    ghost var ts := w.Tokens();
    var matchlen, o := Look3(s, tab, counter, src);
    Insert3(s, tab, counter, src);
    ghost var t: Token;
    if matchlen >= 3 && src - o < 131071 {
      var offset := src - o;
      Skip3(s, tab, counter, src, matchlen);
      src' := src + matchlen;
      t := Ref(matchlen, offset);
      PutRef3(w, matchlen, offset);
    } else {
      t := Lit(s[src]);
      PutLit(w, s[src]);
      src' := src + 1;
    }
    Greedy3Covers(s, ts, t);
    ParsedSnoc(3, s, ts, t);
    DescribesSnoc(3, s, ts, t);
  }

  // ----- both levels

  method WriteHeader(a: array<byte>, level: nat, compressible: bool, total: nat, plain: nat)
    requires (level == 1 || level == 3) && a.Length >= HEADER_LEN
    modifies a
    ensures a[..] == Header(level, compressible, total, plain) + old(a[HEADER_LEN..])
  {
    a[0] := (if compressible then 3 else 2) + level * 4 + 64;
    FastWrite(a, 1, total, 4);
    FastWrite(a, 5, plain, 4);
  }

  /** Shifts the marker of a partial group down to bit 0. */
  method AlignWord(v: nat, ghost k: nat, ghost f: nat) returns (r: nat)
    requires v == Pow2(k) * (1 + 2 * f)
    ensures r == 1 + 2 * f
  {
    r := v;
    ghost var left: nat := k;
    while r % 2 != 1
      invariant r == Pow2(left) * (1 + 2 * f)
      decreases left
    {
      assert left > 0;
      Halve(Pow2(left - 1), f);
      left := left - 1;
      r := r / 2;
    }
    if left > 0 {
      Halve(Pow2(left - 1), f);
    }
  }

  lemma FrameBytes(level: nat, s: seq<byte>, ts: seq<Token>, b: seq<byte>, b': seq<byte>, dst: nat)
    requires (level == 1 || level == 3) && Describes(level, s, ts) && Span(ts) == |s| && s != []
    requires HEADER_LEN <= dst <= |b| && b[HEADER_LEN..dst] == Layout(level, ts)
    requires b' == Header(level, true, dst, |s|) + b[HEADER_LEN..]
    ensures IsPacked(b'[..dst], level, s, ts)
  {
    hide Layout, Describes, Span, LE;
    assert b'[..dst] == Header(level, true, dst, |s|) + b[HEADER_LEN..dst];
  }

  /** Turns the open group into the end of the frame. */
  method Finish(w: Writer, s: seq<byte>) returns (frame: seq<byte>)
    requires (w.level == 1 || w.level == 3) && w.Valid() && w.cur != []
    requires Describes(w.level, s, w.Tokens()) && Span(w.Tokens()) == |s| && s != []
    modifies w`cwordVal, w.buf
    ensures IsPacked(frame, w.level, s, w.Tokens())
  {
    hide Layout, Describes, Span, Group, LE, FullGroups, Codes, Flags, IsPacked, Header, Pow2;
    w.cwordVal := AlignWord(w.cwordVal, GROUP - |w.cur|, Flags(w.cur));
    Pow2Values();
    FastWrite(w.buf, w.cwordPtr, w.cwordVal / 2 + 0x8000_0000, CWORD_LEN);
    OpenClose(w.level, old(w.buf[..]), w.cwordPtr, w.dst, w.done, w.cur,
              LE(Word(w.cur, GROUP), CWORD_LEN), w.buf[..]);
    LayoutSplit(w.level, w.done, w.cur);
    ghost var b := w.buf[..];
    assert w.buf[HEADER_LEN..] == b[HEADER_LEN..];
    WriteHeader(w.buf, w.level, true, w.dst, |s|);
    FrameBytes(w.level, s, w.Tokens(), b, w.buf[..], w.dst);
    frame := w.buf[..w.dst];
    assert frame == w.buf[..][..w.dst];
  }

  /** The frame that carries the source as it is. */
  method Store(s: seq<byte>, level: nat) returns (frame: seq<byte>)
    requires level == 1 || level == 3
    ensures IsStored(frame, level, s)
  {
    var d2 := new byte[|s| + HEADER_LEN](_ => 0);
    WriteHeader(d2, level, false, |s| + HEADER_LEN, |s|);
    frame := d2[..HEADER_LEN] + s;
    assert d2[..HEADER_LEN] == d2[..][..HEADER_LEN];
  }

  /** Where the scan stands: the tokens describe the source up to src, and the
      output never ran more than 141 bytes ahead of the source length. `base` is
      where the open group's codes start. */
  ghost predicate Progress(s: seq<byte>, w: Writer, src: nat, base: nat)
    reads w
  {
    && Describes(w.level, s, w.Tokens()) && Span(w.Tokens()) == src <= |s|
    && Parsed(w.level, s, w.Tokens()) && NeverUp(w.level, s, w.Tokens())
    && w.buf.Length == |s| + 400 && |w.cur| <= GROUP
    && |w.done| + |w.cur| <= src
    && 31 * (w.dst - 13 - src) <= 4 * |w.done|
    && w.dst <= base + 4 * |w.cur| && base <= |s| + 17
  }

  lemma NoTokens(level: nat, s: seq<byte>)
    ensures Describes(level, s, []) && Span([]) == 0 && Parsed(level, s, []) && LitRun([]) == 0
  {
  }

  lemma NothingYet(level: nat, s: seq<byte>)
    ensures NeverUp(level, s, [])
  {
  }

  lemma TailLit(level: nat, s: seq<byte>, ts: seq<Token>)
    requires Parsed(level, s, ts) && NeverUp(level, s, ts) && !MayMatch(s, Span(ts)) && Span(ts) < |s|
    ensures Parsed(level, s, ts + [Lit(s[Span(ts)])]) && NeverUp(level, s, ts + [Lit(s[Span(ts)])])
  {
    hide Parsed, Span, NeverUp, FullGroups;
    ParsedSnoc(level, s, ts, Lit(s[Span(ts)]));
    NeverUpSnoc(level, s, ts, Lit(s[Span(ts)]));
  }

  /** The last bytes go out as literals. */
  method Tail(s: seq<byte>, w: Writer, start: nat) returns (frame: seq<byte>)
    requires (w.level == 1 || w.level == 3) && w.Valid() && s != []
    requires Describes(w.level, s, w.Tokens()) && Span(w.Tokens()) == start < |s| && start + 10 >= |s|
    requires w.buf.Length == |s| + 400 && w.dst <= |s| + 141
    requires Parsed(w.level, s, w.Tokens()) && NeverUp(w.level, s, w.Tokens())
    modifies w, w.buf
    ensures IsGreedy(frame, w.level, s)
  {
    hide IsGreedy, Describes, Span, LastStart, Open, Shifted, TokenOk, Parsed, NeverUp, IsPacked;
    var src := start;
    while src <= |s| - 1
      invariant start <= src <= |s| && w.Valid()
      invariant Describes(w.level, s, w.Tokens()) && Span(w.Tokens()) == src
      invariant Parsed(w.level, s, w.Tokens()) && NeverUp(w.level, s, w.Tokens())
      invariant w.dst <= |s| + 141 + 5 * (src - start)
      invariant src > start ==> w.cur != []
    {
      w.GroupRoom();
      if w.cwordVal % 2 == 1 {
        w.NextWord();
      }
      LitOk(w.level, s, w.Tokens());
      TailLit(w.level, s, w.Tokens());
      DescribesSnoc(w.level, s, w.Tokens(), Lit(s[src]));
      PutLit(w, s[src]);
      src := src + 1;
    }
    frame := Finish(w, s);
    PackedIsGreedy(frame, w.level, s, w.Tokens());
  }

  /** How much is written when a group is full. */
  lemma FullSize(level: nat, b: seq<byte>, ptr: nat, dst: nat, done: seq<Token>, cur: seq<Token>)
    requires Open(level, b, ptr, dst, done, cur) && |cur| == GROUP
    ensures |done + cur| % GROUP == 0 && dst == HEADER_LEN + |FullGroups(level, done + cur)|
  {
    hide FullGroups, Codes, LE;
    FullGroupsSnoc(level, done, cur);
    WordLen(level, cur);
  }

  lemma WordLen(level: nat, ts: seq<Token>)
    ensures |Group(level, ts)| == CWORD_LEN + |Codes(level, ts)|
  {
  }

  /** Before a token: opens a new group when the last one is full. Past three
      quarters of the source this is given up if the output saves too little,
      which is what bounds the control words' overhead. */
  method NextGroup(s: seq<byte>, w: Writer, src: nat, ghost base: nat) returns (giveUp: bool, ghost base': nat)
    requires w.Valid() && Progress(s, w, src, base) && MayMatch(s, src) && (w.done == [] || w.cur != [])
    modifies w`dst, w`cwordPtr, w`cwordVal, w`done, w`cur, w.buf
    ensures giveUp <==> GivesUp(w.level, s, old(w.Tokens()))
    ensures !giveUp ==> w.Valid() && Progress(s, w, src, base') && |w.cur| < GROUP
    ensures !giveUp ==> w.Tokens() == old(w.Tokens())
  {
    hide Describes, Span, Open, Shifted, Parsed, NeverUp, FullGroups;
    w.GroupRoom();
    if w.cwordVal % 2 != 1 {
      NotFull(w.level, s, w.buf[..], w.cwordPtr, w.dst, w.done, w.cur);
      return false, base;
    }
    FullSize(w.level, w.buf[..], w.cwordPtr, w.dst, w.done, w.cur);
    if src > 3 * (|s| / 4) && w.dst > src - src / 32 {
      return true, base;
    }
    w.NextWord();
    return false, w.dst;
  }

  lemma NotFull(level: nat, s: seq<byte>, b: seq<byte>, ptr: nat, dst: nat, done: seq<Token>, cur: seq<Token>)
    requires Open(level, b, ptr, dst, done, cur) && |cur| < GROUP && (done == [] || cur != [])
    ensures !GivesUp(level, s, done + cur)
  {
    hide Span, FullGroups, Codes;
  }

  /** What the match tables hold at a level. */
  ghost predicate TablesOk(s: seq<byte>, w: Writer, tab1: array<nat>, cache: array<nat>, counter: array<nat>,
                           tab3: array2<nat>, lits: nat)
    reads w, tab1, cache, counter, tab3
  {
    if w.level == 1 then
      && tab1 != cache && tab1 != counter && cache != counter
      && lits == LitRun(w.Tokens()) && Tables1(s, w.Tokens(), tab1[..], cache[..], counter[..])
    else |s| >= 11 ==> Table3(s, Span(w.Tokens()), tab3, counter)
  }

  /** One pass of the main loop. */
  method OneToken(s: seq<byte>, w: Writer, tab1: array<nat>, cache: array<nat>, counter: array<nat>, tab3: array2<nat>,
                  src: nat, lits: nat, fetch: nat, ghost base: nat)
    returns (giveUp: bool, src': nat, lits': nat, fetch': nat, ghost base': nat)
    requires (w.level == 1 || w.level == 3) && w.Valid() && Progress(s, w, src, base) && src + 11 <= |s|
    requires TablesOk(s, w, tab1, cache, counter, tab3, lits) && (w.level == 1 ==> fetch == Window(s, src))
    requires w.done == [] || w.cur != []
    modifies w`dst, w`cwordPtr, w`cwordVal, w`done, w`cur, w.buf, tab1, cache, counter, tab3
    ensures giveUp ==> Incompressible(w.level, s)
    ensures !giveUp ==> w.Valid() && Progress(s, w, src', base') && src < src' && src' + UNCOMPRESSED_END <= |s|
    ensures !giveUp ==> w.cur != []
    ensures !giveUp ==> TablesOk(s, w, tab1, cache, counter, tab3, lits')
    ensures !giveUp && w.level == 1 ==> fetch' == Window(s, src')
  {
    hide Describes, Span, LastStart, Open, Shifted, Val, Tables1, Table3, LitRun, Parsed, NeverUp, GivesUp;
    src', lits', fetch' := src, lits, fetch;
    ghost var ts := w.Tokens();
    giveUp, base' := NextGroup(s, w, src, base);
    if giveUp {
      return;
    }
    if w.level == 1 {
      src', lits', fetch' := Step1(s, w, tab1, cache, counter, src, lits, fetch);
    } else {
      src' := Step3(s, w, tab3, counter, src);
    }
    assert w.Tokens() == ts + [w.Tokens()[|ts|]];
    NeverUpSnoc(w.level, s, ts, w.Tokens()[|ts|]);
  }

  lemma Table3Empty(s: seq<byte>, tab: array2<nat>, counter: array<nat>)
    requires tab.Length0 == HASH_VALUES && tab.Length1 == POINTERS_3 && counter.Length == HASH_VALUES && |s| >= 4
    requires forall h, k :: 0 <= h < HASH_VALUES && 0 <= k < POINTERS_3 ==> tab[h, k] == 0
    requires forall h :: 0 <= h < HASH_VALUES ==> counter[h] == 0
    ensures Table3(s, 0, tab, counter)
  {
    hide Hash, Window;
    forall h | 0 <= h < HASH_VALUES
      ensures Slot3(Seen(s, 0, h), SlotOf(tab, h), counter[h])
    {
      assert Seen(s, 0, h) == [];
    }
  }

  /** QuickLZ compression. The result is the frame of s, for every non-empty s; on
      the way no index leaves the source or the |s| + 400 byte work buffer. */
  method Compress(s: seq<byte>, level: nat) returns (frame: seq<byte>)
    requires level == 1 || level == 3
    ensures s == [] ==> frame == []
    ensures s != [] ==> IsGreedy(frame, level, s) && IsFrame(frame, level, s)
  {
    hide IsFrame, Describes, Span, LastStart, Open, Shifted, Val, Tables1, Parsed, NeverUp, Incompressible, IsStored,
      LitRun, Table3;
    var w := new Writer(level, |s| + 400);
    var cachetable := new nat[HASH_VALUES](_ => 0);
    var hashCounter := new nat[HASH_VALUES](_ => 0);
    var hashtable1 := new nat[HASH_VALUES](_ => 0);
    var hashtable3 := new nat[HASH_VALUES, POINTERS_3]((_, _) => 0);
    var lastMatchStart := |s| - UNCONDITIONAL_MATCHLEN - UNCOMPRESSED_END - 1;
    if s == [] {
      return [];
    }
    var src: nat, lits: nat, fetch: nat := 0, 0, 0;
    if src <= lastMatchStart {
      fetch := FastRead(s, src, 3);
    }
    ghost var base := w.dst;
    Tables1Empty(s, hashtable1[..], cachetable[..], hashCounter[..]);
    NoTokens(level, s);
    NothingYet(level, s);
    assert w.Tokens() == [];
    if |s| >= 11 {
      Table3Empty(s, hashtable3, hashCounter);
    }
    while src <= lastMatchStart
      invariant w.Valid() && Progress(s, w, src, base)
      invariant src == 0 || src + UNCOMPRESSED_END <= |s|
      invariant level == 1 && src <= lastMatchStart ==> fetch == Window(s, src)
      invariant TablesOk(s, w, hashtable1, cachetable, hashCounter, hashtable3, lits)
      invariant w.done == [] || w.cur != []
      decreases |s| - src
    {
      var giveUp;
      giveUp, src, lits, fetch, base :=
        OneToken(s, w, hashtable1, cachetable, hashCounter, hashtable3, src, lits, fetch, base);
      if giveUp {
        frame := Store(s, level);
        GreedyIsFrame(frame, level, s);
        return;
      }
    }
    frame := Tail(s, w, src);
    GreedyIsFrame(frame, level, s);
  }
}
