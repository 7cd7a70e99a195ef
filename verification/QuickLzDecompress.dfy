/**
  The decompressor. It never sees the tokens: it recovers them from control
  words and codes, and at level 1 it rebuilds the compressor's hash table three
  bytes late.
*/
module QuickLzDecompress {
  import opened Bytes
  import opened Bits
  import opened QuickLzFormat
  import opened QuickLzWriter
  import opened QuickLzCompress

  // ----- match codes

  /** Level-3 code at the head of four bytes: (distance, length, width). */
  function DecodeRef3(fetch: nat): (nat, nat, nat) {
    if fetch % 4 == 0 then (fetch % 256 / 4, 3, 1)
    else if fetch / 2 % 2 == 0 then (fetch % 65536 / 4, 3, 2)
    else if fetch % 2 == 0 then (fetch % 65536 / 64, fetch / 4 % 16 + 3, 2)
    else if fetch % 128 != 3 then (fetch / 128 % 0x2_0000, fetch / 4 % 32 + 2, 3)
    else (fetch / 32768, fetch / 128 % 256 + 3, 4)
  }

  lemma Byte1(off: nat, above: nat)
    requires off <= 63
    ensures DecodeRef3(off * 4 + 256 * above) == (off, 3, 1)
  {
    var f := off * 4 + 256 * above;
    DivMod(f, off + 64 * above, 4, 0);
    DivMod(f, above, 256, off * 4);
  }

  lemma Byte2Near(off: nat, above: nat)
    requires off <= 16383
    ensures DecodeRef3(off * 4 + 1 + 65536 * above) == (off, 3, 2)
  {
    var f := off * 4 + 1 + 65536 * above;
    DivMod(f, off + 16384 * above, 4, 1);
    DivMod(f, off * 2 + 32768 * above, 2, 1);
    DivMod(off * 2 + 32768 * above, off + 16384 * above, 2, 0);
    DivMod(f, above, 65536, off * 4 + 1);
    DivMod(off * 4 + 1, off, 4, 1);
  }

  lemma Byte2Long(len: nat, off: nat, above: nat)
    requires 3 <= len <= 18 && off <= 1023
    ensures DecodeRef3((len - 3) * 4 + off * 64 + 2 + 65536 * above) == (off, len, 2)
  {
    var x, f := (len - 3) + 16 * off + 16384 * above, (len - 3) * 4 + off * 64 + 2 + 65536 * above;
    DivMod(f, x, 4, 2);
    DivMod(f, 2 * x + 1, 2, 0);
    DivMod(2 * x + 1, x, 2, 1);
    DivMod(x, off + 1024 * above, 16, len - 3);
    DivMod(f, above, 65536, (len - 3) * 4 + off * 64 + 2);
    DivMod((len - 3) * 4 + off * 64 + 2, off, 64, (len - 3) * 4 + 2);
  }

  lemma Byte3(len: nat, off: nat, above: nat)
    requires 3 <= len <= 33 && off < 131071
    ensures DecodeRef3((len - 2) * 4 + off * 128 + 3 + 0x100_0000 * above) == (off, len, 3)
  {
    var x := (len - 2) + 32 * off + 0x40_0000 * above;
    var f := (len - 2) * 4 + off * 128 + 3 + 0x100_0000 * above;
    DivMod(f, x, 4, 3);
    DivMod(f, 2 * x + 1, 2, 1);
    DivMod(2 * x + 1, x, 2, 1);
    DivMod(x, off + 0x2_0000 * above, 32, len - 2);
    DivMod(f, off + 0x2_0000 * above, 128, (len - 2) * 4 + 3);
    DivMod(off + 0x2_0000 * above, above, 0x2_0000, off);
  }

  lemma Byte4(len: nat, off: nat)
    requires 3 <= len <= 255 && off < 131071
    ensures DecodeRef3((len - 3) * 128 + off * 32768 + 3) == (off, len, 4)
  {
    var x, f := (len - 3) * 32 + off * 8192, (len - 3) * 128 + off * 32768 + 3;
    DivMod(f, x, 4, 3);
    DivMod(f, 2 * x + 1, 2, 1);
    DivMod(2 * x + 1, x, 2, 1);
    DivMod(f, (len - 3) + 256 * off, 128, 3);
    DivMod((len - 3) + 256 * off, off, 256, len - 3);
    DivMod(f, off, 32768, (len - 3) * 128 + 3);
  }

  /** The five level-3 encodings are unambiguous: whatever bytes follow the code,
      decoding gives the length and distance that were encoded. */
  lemma Ref3Decodes(len: nat, off: nat, fetch: nat, above: nat)
    requires 3 <= len <= 255 && 0 < off < 131071 && fetch < 0x1_0000_0000
    requires fetch == Code3(len, off).0 + Pow256(Code3(len, off).1) * above
    ensures DecodeRef3(fetch) == (off, len, Code3(len, off).1)
  {
    hide DecodeRef3;
    Pow256Values();
    if len == 3 && off <= 63 {
      Byte1(off, above);
    } else if len == 3 && off <= 16383 {
      Byte2Near(off, above);
    } else if len <= 18 && off <= 1023 {
      Byte2Long(len, off, above);
    } else if len <= 33 {
      Byte3(len, off, above);
    } else {
      assert above == 0;
      Byte4(len, off);
    }
  }

  /** The same for level 1. */
  lemma Ref1Decodes(len: nat, hash: nat, fetch: nat, above: nat)
    requires 3 <= len <= 255 && hash < HASH_VALUES && fetch < 0x100_0000
    requires fetch == Code1(len, hash).0 + Pow256(Code1(len, hash).1) * above
    ensures fetch / 16 % 4096 == hash
    ensures len < 18 ==> fetch % 16 != 0 && fetch % 16 + 2 == len
    ensures len >= 18 ==> fetch % 16 == 0 && fetch / 65536 == len
  {
    Pow256Values();
    if len < 18 {
      DivMod(fetch, hash + 4096 * above, 16, len - 2);
      DivMod(hash + 4096 * above, above, 4096, hash);
    } else {
      assert above == 0;
      DivMod(fetch, hash + 4096 * len, 16, 0);
      DivMod(hash + 4096 * len, len, 4096, hash);
      DivMod(fetch, len, 65536, hash * 16);
    }
  }

  // ----- reading position

  /** The frame bytes from token i on, token i being in the group that ends at e. */
  ghost function Rest(level: nat, ts: seq<Token>, i: nat, e: nat): seq<byte>
    requires i <= e <= |ts|
  {
    Codes(level, ts[i..e]) + if e < |ts| then Layout(level, ts[e..]) else []
  }

  /** The reader stands at `src`, before token i; its control word has k unread
      bits, which cover the tokens up to e. */
  ghost predicate At(level: nat, frame: seq<byte>, ts: seq<Token>, i: nat, e: nat, k: nat, src: nat, cwordVal: nat) {
    && i <= e <= |ts| && e - i <= k <= GROUP
    && (e - i == k || e == |ts|)
    && cwordVal == Word(ts[i..e], k)
    && src <= |frame| && frame[src..] == Rest(level, ts, i, e)
  }

  /** The word has run out exactly when only the marker is left. */
  lemma WordRunsOut(ts: seq<Token>, k: nat)
    requires |ts| <= k
    ensures Word(ts, k) == 1 <==> k == 0
    ensures ts != [] ==> Word(ts, k) % 2 == Flag(ts[0]) && Word(ts, k) / 2 == Word(ts[1..], k - 1)
  {
    if ts != [] {
      DivMod(Word(ts, k), Word(ts[1..], k - 1), 2, Flag(ts[0]));
    }
  }

  lemma WordBound(g: seq<Token>)
    requires |g| <= GROUP
    ensures Word(g, GROUP) < 0x1_0000_0000
  {
    FlagsBound(g);
    Pow2Values();
    Pow2Mono(|g|, GROUP);
  }

  lemma {:induction false} Pow2Mono(a: nat, b: nat)
    requires a <= b
    ensures Pow2(a) <= Pow2(b)
    decreases b
  {
    if a < b {
      Pow2Mono(a, b - 1);
    }
  }

  lemma SuffixSplit(a: seq<byte>, p: nat, x: seq<byte>, y: seq<byte>)
    requires p <= |a| && a[p..] == x + y
    ensures p + |x| <= |a| && a[p..p + |x|] == x && a[p + |x|..] == y
  {
    assert a[p..p + |x|] == a[p..][..|x|];
    assert a[p + |x|..] == a[p..][|x|..];
  }

  /** Reading a control word opens the next group. */
  lemma AtWord(level: nat, frame: seq<byte>, ts: seq<Token>, i: nat, src: nat)
    requires At(level, frame, ts, i, i, 0, src, 1) && i < |ts|
    ensures var e := i + GroupEnd(ts[i..]);
            && i < e && src + CWORD_LEN <= |frame|
            && At(level, frame, ts, i, e, GROUP, src + CWORD_LEN, Val(frame[src..src + CWORD_LEN]))
  {
    hide Word, Codes, Pow2, LE, Val, Layout;
    var e := i + GroupEnd(ts[i..]);
    var g := ts[i..e];
    assert ts[i..i] == [];
    CodesNil(level);
    assert frame[src..] == [] + Layout(level, ts[i..]);
    LayoutHead(level, ts, i);
    SuffixSplit(frame, src, LE(Word(g, GROUP), CWORD_LEN), Rest(level, ts, i, e));
    WordBound(g);
    Pow256Values();
    ValLE(Word(g, GROUP), CWORD_LEN);
  }

  lemma CodesNil(level: nat)
    ensures Codes(level, []) == []
  {
  }

  lemma LayoutHead(level: nat, ts: seq<Token>, i: nat)
    requires i < |ts|
    ensures var e := i + GroupEnd(ts[i..]);
            Layout(level, ts[i..]) == LE(Word(ts[i..e], GROUP), CWORD_LEN) + Rest(level, ts, i, e)
  {
    hide LE, Word, Codes;
    var e := i + GroupEnd(ts[i..]);
    var rest := ts[i..];
    assert ts[i..e] == rest[..e - i] && ts[e..] == rest[e - i..];
    if |rest| <= GROUP {
      assert rest[..e - i] == rest;
    } else {
      ConcatAssoc(LE(Word(ts[i..e], GROUP), CWORD_LEN), Codes(level, ts[i..e]), Layout(level, ts[e..]));
    }
  }

  /** Reading a token: its code comes next, its flag is bit 0. */
  lemma AtToken(level: nat, frame: seq<byte>, ts: seq<Token>, i: nat, e: nat, k: nat, src: nat, cwordVal: nat)
    requires At(level, frame, ts, i, e, k, src, cwordVal) && i < e
    ensures var n := |Code(level, ts[i])|;
            && src + n <= |frame| && frame[src..src + n] == Code(level, ts[i])
            && cwordVal % 2 == Flag(ts[i])
            && At(level, frame, ts, i + 1, e, k - 1, src + n, cwordVal / 2)
  {
    hide Word, Code, Layout;
    var code := Code(level, ts[i]);
    WordRunsOut(ts[i..e], k);
    assert ts[i..e][1..] == ts[i + 1..e];
    var after := if e < |ts| then Layout(level, ts[e..]) else [];
    ConcatAssoc(code, Codes(level, ts[i + 1..e]), after);
    SuffixSplit(frame, src, code, Rest(level, ts, i + 1, e));
  }

  /** The last four plaintext bytes are literals, so a look-ahead of up to four
      bytes stays inside the frame. */
  lemma {:induction false} CodesLong(level: nat, s: seq<byte>, ts: seq<Token>, i: nat, w: nat)
    requires Describes(level, s, ts) && Span(ts) == |s| && i <= |ts|
    requires w <= UNCOMPRESSED_END && Span(ts[..i]) + w <= |s|
    ensures |Codes(level, ts[i..])| >= w
    decreases |ts| - i
  {
    if i == |ts| {
      assert ts[..i] == ts;
    } else if w > 0 {
      DescribesAt(level, s, ts, i);
      CodesLong(level, s, ts, i + 1, if ts[i].Lit? then w - 1 else w);
      assert ts[i..][1..] == ts[i + 1..];
    }
  }

  lemma {:induction false} LayoutLong(level: nat, ts: seq<Token>)
    ensures |Layout(level, ts)| >= |Codes(level, ts)|
    decreases |ts|
  {
    hide Codes;
    if |ts| > GROUP {
      LayoutLong(level, ts[GROUP..]);
      CodesConcat(level, ts[..GROUP], ts[GROUP..]);
      assert ts[..GROUP] + ts[GROUP..] == ts;
    }
  }

  lemma LookAhead(level: nat, s: seq<byte>, frame: seq<byte>, ts: seq<Token>, i: nat, e: nat, k: nat,
                  src: nat, cwordVal: nat, w: nat)
    requires At(level, frame, ts, i, e, k, src, cwordVal)
    requires Describes(level, s, ts) && Span(ts) == |s|
    requires w <= UNCOMPRESSED_END && Span(ts[..i]) + w <= |s|
    ensures src + w <= |frame|
  {
    hide Describes, Span, Codes, Layout, Word;
    CodesLong(level, s, ts, i, w);
    CodesConcat(level, ts[i..e], ts[e..]);
    assert ts[i..e] + ts[e..] == ts[i..];
    if e == |ts| {
      assert ts[e..] == [];
      CodesNil(level);
    }
    LayoutLong(level, ts[e..]);
  }

  // ----- codes as the look-ahead sees them

  lemma CodeFits(level: nat, len: nat, arg: nat)
    requires 3 <= len <= 255 && arg < (if level == 1 then HASH_VALUES else 131071)
    ensures var (v, n) := RefCode(level, len, arg); v < Pow256(n)
  {
    Pow256Values();
  }

  /** The look-ahead starts with the code of the reference that comes next. */
  lemma FetchCode(level: nat, len: nat, arg: nat, ahead: seq<byte>)
    requires 3 <= len <= 255 && arg < (if level == 1 then HASH_VALUES else 131071)
    requires |RefBytes(level, len, arg)| <= |ahead| <= 4
    requires ahead[..|RefBytes(level, len, arg)|] == RefBytes(level, len, arg)
    ensures var (v, n) := RefCode(level, len, arg);
            n <= |ahead| && Val(ahead) == v + Pow256(n) * Val(ahead[n..]) && Val(ahead) < Pow256(|ahead|)
  {
    hide Pow256, Val;
    var (v, n) := RefCode(level, len, arg);
    CodeFits(level, len, arg);
    ValLE(v, n);
    ValConcat(ahead[..n], ahead[n..]);
    assert ahead[..n] + ahead[n..] == ahead;
    ValBound(ahead);
  }

  function RefBytes(level: nat, len: nat, arg: nat): (c: seq<byte>)
    requires 3 <= len <= 255
    ensures c == Code(level, Ref(len, arg))
  {
    var (v, n) := RefCode(level, len, arg);
    LE(v, n)
  }

  // ----- level 1: the hash table, three bytes late

  /** The plaintext positions at which tokens start. */
  ghost function Starts(ts: seq<Token>): set<nat> {
    if ts == [] then {} else Starts(ts[..|ts| - 1]) + {Span(ts[..|ts| - 1])}
  }

  lemma StartsSnoc(ts: seq<Token>, t: Token)
    ensures Starts(ts + [t]) == Starts(ts) + {Span(ts)}
  {
    assert (ts + [t])[..|ts|] == ts;
  }

  lemma {:induction false} StartsBelowSpan(level: nat, s: seq<byte>, ts: seq<Token>)
    requires Describes(level, s, ts)
    ensures forall q :: q in Starts(ts) ==> q < Span(ts)
  {
    if ts != [] {
      StartsBelowSpan(level, s, ts[..|ts| - 1]);
    }
  }

  ghost predicate HasHash(s: seq<byte>, q: nat, h: nat) {
    q + 3 <= |s| && Hash(Window(s, q)) == h
  }

  /** LastStart is the maximum of the starts it ranges over. */
  lemma {:induction false} LastStartIsMax(level: nat, s: seq<byte>, ts: seq<Token>, b: int, h: nat)
    requires Describes(level, s, ts)
    ensures forall q :: q in Starts(ts) && q <= b && HasHash(s, q, h) ==> q <= LastStart(s, ts, b, h)
    ensures LastStart(s, ts, b, h) >= 0 ==> LastStart(s, ts, b, h) in Starts(ts)
  {
    hide Hash, Window;
    if ts != [] {
      StartsBelowSpan(level, s, ts[..|ts| - 1]);
      LastStartIsMax(level, s, ts[..|ts| - 1], b, h);
    }
  }

  /** Every start up to lastHashed leads, through the slot of its hash, to the
      last such start. */
  ghost predicate Hashed(s: seq<byte>, starts: set<nat>, lastHashed: int, tab: seq<nat>) {
    && |tab| == HASH_VALUES
    && forall q :: q in starts && q <= lastHashed ==>
         && q + 3 <= |s|
         && var h := Hash(Window(s, q)); var r := tab[h];
            q <= r <= lastHashed && r in starts && HasHash(s, r, h)
  }

  /** The lag: positions after lastHashed are all starts, and none of the last
      two positions up to lastHashed is. */
  ghost predicate Lag(starts: set<nat>, lastHashed: int, dst: nat) {
    && dst - 3 <= lastHashed < dst
    && (forall q :: lastHashed < q < dst ==> q in starts)
    && (forall q :: q in starts && q <= lastHashed ==> q <= dst - 3)
  }

  /** At a reference the lagging table resolves the hash to the start the format
      means. */
  lemma Resolve(s: seq<byte>, ts: seq<Token>, dst: nat, h: nat, lastHashed: int, tab: seq<nat>)
    requires Describes(1, s, ts) && Span(ts) == dst && h < HASH_VALUES
    requires Hashed(s, Starts(ts), lastHashed, tab) && Lag(Starts(ts), lastHashed, dst)
    requires LastStart(s, ts, dst - 3, h) >= 0
    ensures tab[h] == LastStart(s, ts, dst - 3, h)
  {
    hide Describes, Span, Hash, Window;
    LastStartIsMax(1, s, ts, dst - 3, h);
  }

  lemma HashedNext(s: seq<byte>, starts: set<nat>, q0: nat, tab: seq<nat>)
    requires Hashed(s, starts, q0 - 1, tab) && q0 in starts && q0 + 3 <= |s|
    ensures Hashed(s, starts, q0, tab[Hash(Window(s, q0)) := q0])
  {
    hide Hash, Window;
  }

  /** After a literal: hashes what is now three bytes back. */
  method RehashLit(tab: array<nat>, dest: array<byte>, dst: nat, lastHashed: int, ghost s: seq<byte>,
                   ghost starts: set<nat>)
    returns (lh: int)
    requires 0 < dst <= dest.Length == |s| && dest[..dst] == s[..dst]
    requires -1 <= lastHashed && Hashed(s, starts, lastHashed, tab[..])
    requires dst - 4 <= lastHashed < dst
    requires forall q :: lastHashed < q < dst ==> q in starts
    requires forall q :: q in starts && q <= lastHashed ==> q <= dst - 4
    modifies tab
    ensures -1 <= lh && Hashed(s, starts, lh, tab[..]) && Lag(starts, lh, dst)
  {
    lh := lastHashed;
    while lh < dst - 3
      invariant -1 <= lastHashed <= lh < dst && dst - 4 <= lh
      invariant Hashed(s, starts, lh, tab[..])
      invariant forall q :: lh < q < dst ==> q in starts
      invariant forall q :: q in starts && q <= lh ==> q <= dst - 3
    {
      hide Hash, Hashed;
      lh := lh + 1;
      var fetch2 := FastRead(dest[..], lh, 3);
      assert dest[..][lh..lh + 3] == dest[..dst][lh..lh + 3] == s[lh..lh + 3];
      HashedNext(s, starts, lh, tab[..]);
      var hash := Hash(fetch2);
      HashedSize(s, starts, lh - 1, tab[..]);
      ghost var before := tab[..];
      tab[hash] := lh;
      assert tab[..] == before[hash := lh as nat];
    }
  }

  lemma HashedSize(s: seq<byte>, starts: set<nat>, lastHashed: int, tab: seq<nat>)
    requires Hashed(s, starts, lastHashed, tab)
    ensures |tab| == HASH_VALUES
  {
  }

  lemma SameSlice(a: seq<byte>, b: seq<byte>, n: nat, i: nat, j: nat)
    requires n <= |a| && n <= |b| && a[..n] == b[..n] && i <= j <= n
    ensures a[i..j] == b[i..j]
  {
    var x, y := a[..n], b[..n];
    assert a[i..j] == x[i..j] && b[i..j] == y[i..j];
  }

  /** After a reference at p: hashes everything up to its start and skips the rest. */
  method RehashRef(tab: array<nat>, dest: array<byte>, p: nat, len: nat, lastHashed: int, ghost s: seq<byte>,
                   ghost starts: set<nat>)
    returns (lh: int)
    requires 3 <= len && p + len + 4 <= dest.Length == |s| && dest[..p + len] == s[..p + len]
    requires -1 <= lastHashed < p && Hashed(s, starts, lastHashed, tab[..])
    requires forall q :: lastHashed < q <= p ==> q in starts
    requires forall q :: q in starts ==> q <= p
    modifies tab
    ensures lh == p + len - 1
    ensures Hashed(s, starts, lh, tab[..]) && Lag(starts, lh, p + len)
  {
    hide Hash, Hashed, Val;
    lh := lastHashed;
    var fetch := FastRead(dest[..], lh + 1, 3);
    assert dest[..][..p + len] == dest[..p + len];
    SameSlice(dest[..], s, p + len, lh + 1, lh + 4);
    while lh < p
      invariant lastHashed <= lh <= p
      invariant Hashed(s, starts, lh, tab[..])
      invariant lh < p ==> fetch == Window(s, lh + 1)
    {
      HashedNext(s, starts, lh + 1, tab[..]);
      HashedSize(s, starts, lh, tab[..]);
      lh := lh + 1;
      var hash := Hash(fetch);
      ghost var before := tab[..];
      tab[hash] := lh;
      assert tab[..] == before[hash := lh as nat];
      fetch := fetch / 256 % 65536 + (dest[lh + 3] as int) * 65536;
      SlideWindow(s, lh);
      if lh < p {
        assert dest[lh + 3] == dest[..p + len][lh + 3] == s[lh + 3];
      }
    }
    lh := p + len - 1;
    HashedExtend(s, starts, p, lh, tab[..]);
  }

  lemma HashedExtend(s: seq<byte>, starts: set<nat>, p: nat, b: int, tab: seq<nat>)
    requires Hashed(s, starts, p, tab) && p <= b && forall q :: q in starts ==> q <= p
    ensures Hashed(s, starts, b, tab)
  {
    hide Hash, Window;
  }

  /** Forward copy, byte by byte, so that an overlapping source repeats itself. */
  method CopyMatch(dest: array<byte>, dst: nat, from: nat, len: nat, ghost s: seq<byte>)
    requires dest.Length == |s| && 3 <= len && Repeats(s, from, dst, len) && dest[..dst] == s[..dst]
    modifies dest
    ensures dest[..dst + len] == s[..dst + len]
  {
    assert forall k :: 0 <= k < dst ==> dest[k] == dest[..dst][k] == s[k];
    assert s[dst] == s[from] && s[dst + 1] == s[from + 1] && s[dst + 2] == s[from + 2];
    dest[dst] := dest[from];
    dest[dst + 1] := dest[from + 1];
    dest[dst + 2] := dest[from + 2];
    for i := 3 to len
      invariant forall k :: 0 <= k < dst + i ==> dest[k] == s[k]
    {
      dest[dst + i] := dest[from + i];
    }
  }

  // ----- the main loop

  function Width(level: nat): nat {
    if level == 1 then 3 else 4
  }

  ghost predicate Ahead(frame: seq<byte>, src: nat, w: nat, fetch: nat) {
    src + w <= |frame| && fetch == Val(frame[src..src + w])
  }

  /** Between two tokens: position in the frame, position in the plaintext, and
      a look-ahead wherever a reference may still follow. */
  ghost predicate Reading(level: nat, s: seq<byte>, frame: seq<byte>, ts: seq<Token>, i: nat, e: nat, k: nat,
                          src: nat, cwordVal: nat, dst: nat, fetch: nat) {
    && (level == 1 || level == 3)
    && Describes(level, s, ts) && Span(ts) == |s|
    && At(level, frame, ts, i, e, k, src, cwordVal)
    && dst == Span(ts[..i]) < |s|
    && (k > 0 && dst + 11 <= |s| ==> Ahead(frame, src, Width(level), fetch))
  }

  lemma MoreTokens(level: nat, s: seq<byte>, frame: seq<byte>, ts: seq<Token>, i: nat, e: nat, k: nat,
                   src: nat, cwordVal: nat, dst: nat, fetch: nat)
    requires Reading(level, s, frame, ts, i, e, k, src, cwordVal, dst, fetch)
    ensures i < |ts| && (k > 0 ==> i < e) && (cwordVal == 1 <==> k == 0) && (k == 0 ==> i == e)
  {
    hide Describes, Rest;
    WordRunsOut(ts[i..e], k);
    assert ts[..|ts|] == ts;
  }

  method ReadWord(level: nat, frame: seq<byte>, lastMatchStart: int, src: nat, dst: nat, fetch: nat,
                  ghost s: seq<byte>, ghost ts: seq<Token>, ghost i: nat)
    returns (src': nat, cwordVal: nat, fetch': nat, ghost e: nat)
    requires Reading(level, s, frame, ts, i, i, 0, src, 1, dst, fetch) && lastMatchStart == |s| - 11
    ensures Reading(level, s, frame, ts, i, e, GROUP, src', cwordVal, dst, fetch')
  {
    hide Describes, Span, Codes, Word, Rest, Val;
    MoreTokens(level, s, frame, ts, i, i, 0, src, 1, dst, fetch);
    AtWord(level, frame, ts, i, src);
    e := i + GroupEnd(ts[i..]);
    cwordVal := FastRead(frame, src, CWORD_LEN);
    src' := src + CWORD_LEN;
    fetch' := fetch;
    if dst <= lastMatchStart {
      LookAhead(level, s, frame, ts, i, e, GROUP, src', cwordVal, Width(level));
      fetch' := FastRead(frame, src', Width(level));
    }
  }

  /** What the look-ahead says about the next reference. */
  method ParseRef(level: nat, frame: seq<byte>, src: nat, dst: nat, fetch: nat, tab: array<nat>, lastHashed: int,
                  ghost s: seq<byte>, ghost pre: seq<Token>, ghost t: Token)
    returns (matchlen: nat, from: nat, src': nat)
    requires (level == 1 || level == 3) && t.Ref? && TokenOk(level, s, pre, t) && dst == Span(pre)
    requires src + |Code(level, t)| <= |frame| && frame[src..src + |Code(level, t)|] == Code(level, t)
    requires Ahead(frame, src, Width(level), fetch)
    requires level == 1 ==> Describes(1, s, pre)
    requires level == 1 ==> Hashed(s, Starts(pre), lastHashed, tab[..]) && Lag(Starts(pre), lastHashed, dst)
    ensures matchlen == t.len && src' == src + |Code(level, t)| && Repeats(s, from, dst, matchlen)
  {
    hide Describes, Starts, Hash, LE, LastStart, Lag, Pow256;
    ghost var ahead := frame[src..src + Width(level)];
    ghost var c := RefBytes(level, t.len, t.arg);
    assert ahead[..|c|] == c by {
      assert ahead[..|c|] == frame[src..src + |c|];
    }
    FetchCode(level, t.len, t.arg, ahead);
    Pow256Values();
    if level == 1 {
      Ref1Decodes(t.len, t.arg, fetch, Val(ahead[Code1(t.len, t.arg).1..]));
      var hash := fetch / 16 % 4096;
      Resolve(s, pre, dst, hash, lastHashed, tab[..]);
      WindowBytes(frame, src);
      from := tab[hash];
      if fetch % 16 != 0 {
        matchlen := fetch % 16 + 2;
        src' := src + 2;
      } else {
        matchlen := frame[src + 2];
        src' := src + 3;
      }
    } else {
      Ref3Decodes(t.len, t.arg, fetch, Val(ahead[Code3(t.len, t.arg).1..]));
      var (offset, len, width) := DecodeRef3(fetch);
      matchlen, src' := len, src + width;
      from := dst - offset;
    }
  }

  /** Everything known before a token of an open group. */
  lemma NextToken(level: nat, s: seq<byte>, frame: seq<byte>, ts: seq<Token>, i: nat, e: nat, k: nat,
                  src: nat, cwordVal: nat, dst: nat, fetch: nat)
    requires Reading(level, s, frame, ts, i, e, k, src, cwordVal, dst, fetch) && k > 0
    ensures i < e && TokenOk(level, s, ts[..i], ts[i]) && Describes(level, s, ts[..i])
    ensures Span(ts[..i + 1]) == dst + TokenLen(ts[i]) <= |s|
    ensures cwordVal % 2 == Flag(ts[i])
    ensures var n := |Code(level, ts[i])|;
            && src + n <= |frame| && frame[src..src + n] == Code(level, ts[i])
            && At(level, frame, ts, i + 1, e, k - 1, src + n, cwordVal / 2)
  {
    MoreTokens(level, s, frame, ts, i, e, k, src, cwordVal, dst, fetch);
    hide Describes, Span, Word, Rest, Code, TokenOk;
    DescribesAt(level, s, ts, i);
    DescribesPrefix(level, s, ts, i);
    AtToken(level, frame, ts, i, e, k, src, cwordVal);
  }

  lemma {:induction false} DescribesPrefix(level: nat, s: seq<byte>, ts: seq<Token>, i: nat)
    requires Describes(level, s, ts) && i <= |ts|
    ensures Describes(level, s, ts[..i])
  {
    if i < |ts| {
      DescribesPrefix(level, s, ts[..|ts| - 1], i);
      assert ts[..|ts| - 1][..i] == ts[..i];
    } else {
      assert ts[..i] == ts;
    }
  }

  /** A reference: copy, rehash, look ahead again. */
  method TakeRef(level: nat, frame: seq<byte>, dest: array<byte>, tab: array<nat>, src: nat, cwordVal: nat,
                 dst: nat, fetch: nat, lastHashed: int,
                 ghost s: seq<byte>, ghost ts: seq<Token>, ghost i: nat, ghost e: nat, ghost k: nat)
    returns (src': nat, dst': nat, fetch': nat, lastHashed': int)
    requires Reading(level, s, frame, ts, i, e, k, src, cwordVal, dst, fetch) && k > 0
    requires cwordVal % 2 == 1 && dest.Length == |s| && dest[..dst] == s[..dst]
    requires level == 1 ==> -1 <= lastHashed && Hashed(s, Starts(ts[..i]), lastHashed, tab[..])
    requires level == 1 ==> Lag(Starts(ts[..i]), lastHashed, dst)
    modifies dest, tab
    ensures i < |ts| && dst < dst' < |s| && dest[..dst'] == s[..dst']
    ensures Reading(level, s, frame, ts, i + 1, e, k - 1, src', cwordVal / 2, dst', fetch')
    ensures level == 1 ==> -1 <= lastHashed' && Hashed(s, Starts(ts[..i + 1]), lastHashed', tab[..])
    ensures level == 1 ==> Lag(Starts(ts[..i + 1]), lastHashed', dst')
  {
    hide Describes, Span, Word, Rest, Code, Hash, LastStart, Starts, Val;
    NextToken(level, s, frame, ts, i, e, k, src, cwordVal, dst, fetch);
    ghost var pre, t := ts[..i], ts[i];
    var matchlen, from;
    matchlen, from, src' := ParseRef(level, frame, src, dst, fetch, tab, lastHashed, s, pre, t);
    CopyMatch(dest, dst, from, matchlen, s);
    dst' := dst + matchlen;
    lastHashed' := dst' - 1;
    if level == 1 {
      StartsSnoc(pre, t);
      StartsBelowSpan(1, s, pre);
      assert pre + [t] == ts[..i + 1];
      HashedGrow(s, Starts(pre), dst, lastHashed, tab[..]);
      lastHashed' := RehashRef(tab, dest, dst, matchlen, lastHashed, s, Starts(pre) + {dst});
    }
    LookAhead(level, s, frame, ts, i + 1, e, k - 1, src', cwordVal / 2, Width(level));
    fetch' := FastRead(frame, src', Width(level));
  }

  lemma HashedGrow(s: seq<byte>, starts: set<nat>, p: nat, lastHashed: int, tab: seq<nat>)
    requires Hashed(s, starts, lastHashed, tab) && lastHashed < p
    ensures Hashed(s, starts + {p}, lastHashed, tab)
  {
    hide Hash, Window;
  }

  /** A literal that is far enough from the end to be followed by references. */
  method TakeLit(level: nat, frame: seq<byte>, dest: array<byte>, tab: array<nat>, src: nat, cwordVal: nat,
                 dst: nat, fetch: nat, lastHashed: int,
                 ghost s: seq<byte>, ghost ts: seq<Token>, ghost i: nat, ghost e: nat, ghost k: nat)
    returns (fetch': nat, lastHashed': int)
    requires Reading(level, s, frame, ts, i, e, k, src, cwordVal, dst, fetch) && k > 0
    requires cwordVal % 2 == 0 && dst + 11 <= |s| && dest.Length == |s| && dest[..dst] == s[..dst]
    requires level == 1 ==> -1 <= lastHashed && Hashed(s, Starts(ts[..i]), lastHashed, tab[..])
    requires level == 1 ==> Lag(Starts(ts[..i]), lastHashed, dst)
    modifies dest, tab
    ensures i < |ts| && dest[..dst + 1] == s[..dst + 1]
    ensures Reading(level, s, frame, ts, i + 1, e, k - 1, src + 1, cwordVal / 2, dst + 1, fetch')
    ensures level == 1 ==> -1 <= lastHashed' && Hashed(s, Starts(ts[..i + 1]), lastHashed', tab[..])
    ensures level == 1 ==> Lag(Starts(ts[..i + 1]), lastHashed', dst + 1)
  {
    hide Describes, Span, Word, Rest, Hash, LastStart, Starts, Val, LE;
    NextToken(level, s, frame, ts, i, e, k, src, cwordVal, dst, fetch);
    ghost var pre, t := ts[..i], ts[i];
    assert frame[src] == frame[src..src + 1][0] == t.b;
    ghost var before := dest[..dst];
    dest[dst] := frame[src];
    assert dest[..dst + 1] == before + [s[dst]] == s[..dst + 1];
    LookAhead(level, s, frame, ts, i + 1, e, k - 1, src + 1, cwordVal / 2, Width(level));
    lastHashed' := lastHashed;
    if level == 1 {
      StartsSnoc(pre, t);
      StartsBelowSpan(1, s, pre);
      assert pre + [t] == ts[..i + 1];
      HashedGrow(s, Starts(pre), dst, lastHashed, tab[..]);
      lastHashed' := RehashLit(tab, dest, dst + 1, lastHashed, s, Starts(pre) + {dst});
      SlideWindow(frame, src);
      fetch' := fetch / 256 % 65536 + (frame[src + 3] as int) * 65536;
    } else {
      SlideFour(frame, src);
      fetch' := fetch / 256 % 65536 + (frame[src + 3] as int) * 65536 + (frame[src + 4] as int) * 0x100_0000;
    }
  }

  lemma SlideFour(a: seq<byte>, q: nat)
    requires q + 5 <= |a|
    ensures Val(a[q..q + 4]) / 256 % 65536 + (a[q + 3] as int) * 65536 + (a[q + 4] as int) * 0x100_0000 ==
            Val(a[q + 1..q + 5])
  {
    var x, y := a[q..q + 4], a[q + 1..q + 5];
    ValFour(x);
    ValFour(y);
    var lo: int := x[1] + 256 * x[2] as int;
    var hi: int := x[3];
    DivMod(Val(x), lo + 65536 * hi, 256, x[0]);
    DivMod(lo + 65536 * hi, hi, 65536, lo);
  }

  lemma ValFour(x: seq<byte>)
    requires |x| == 4
    ensures Val(x) == x[0] as int + 256 * x[1] as int + 65536 * x[2] as int + 0x100_0000 * x[3] as int
  {
    assert x[1..][1..] == x[2..] && x[2..][1..] == x[3..] && x[3..][1..] == [];
    assert Val(x[3..]) == x[3] + 256 * Val([]);
    assert Val(x[2..]) == x[2] + 256 * Val(x[3..]);
    assert Val(x[1..]) == x[1] + 256 * Val(x[2..]);
  }

  lemma {:induction false} NoFlags(ts: seq<Token>)
    requires forall i :: 0 <= i < |ts| ==> ts[i].Lit?
    ensures Flags(ts) == 0
  {
    if ts != [] {
      NoFlags(ts[1..]);
    }
  }

  /** Near the end every token is a literal. */
  lemma {:induction false} OnlyLits(level: nat, s: seq<byte>, ts: seq<Token>, i: nat, j: nat)
    requires Describes(level, s, ts) && Span(ts) == |s| && i <= j < |ts| && Span(ts[..i]) + 11 > |s|
    ensures ts[j].Lit? && Span(ts[..j]) >= Span(ts[..i])
    decreases j
  {
    DescribesAt(level, s, ts, j);
    if i < j {
      OnlyLits(level, s, ts, i, j - 1);
      DescribesAt(level, s, ts, j - 1);
    }
  }

  /** The tail: plain bytes, with a control word skipped every 31. */
  method TakeTail(level: nat, frame: seq<byte>, dest: array<byte>, src0: nat, cwordVal0: nat, dst0: nat,
                  ghost s: seq<byte>, ghost ts: seq<Token>, ghost i0: nat, ghost e0: nat, ghost k0: nat)
    requires (level == 1 || level == 3) && Describes(level, s, ts) && Span(ts) == |s|
    requires At(level, frame, ts, i0, e0, k0, src0, cwordVal0)
    requires dst0 == Span(ts[..i0]) <= |s| && dst0 + 11 > |s|
    requires dest.Length == |s| && dest[..dst0] == s[..dst0]
    modifies dest
    ensures dest[..] == s
  {
    hide Describes, Span, Word, Rest, Val, LE, LastStart;
    var src: nat, cwordVal: nat, dst: nat := src0, cwordVal0, dst0;
    ghost var i: nat, e: nat, k: nat := i0, e0, k0;
    while dst <= dest.Length - 1
      invariant At(level, frame, ts, i, e, k, src, cwordVal)
      invariant dst0 <= dst == Span(ts[..i]) <= |s|
      invariant dest[..dst] == s[..dst]
    {
      MoreTokens(level, s, frame, ts, i, e, k, src, cwordVal, dst, 0);
      if cwordVal == 1 {
        TailWord(level, s, frame, ts, i, src);
        e, k := i + GroupEnd(ts[i..]), GROUP;
        src := src + CWORD_LEN;
        cwordVal := 0x8000_0000;
      }
      NextToken(level, s, frame, ts, i, e, k, src, cwordVal, dst, 0);
      OnlyLits(level, s, ts, i, i);
      assert frame[src] == frame[src..src + 1][0] == ts[i].b;
      ghost var before := dest[..dst];
      dest[dst] := frame[src];
      assert dest[..dst + 1] == before + [s[dst]] == s[..dst + 1];
      dst := dst + 1;
      src := src + 1;
      cwordVal := cwordVal / 2;
      i, k := i + 1, k - 1;
    }
    assert dest[..] == dest[..dst] && s == s[..dst];
  }

  /** A control word of the tail has no flag set. */
  lemma TailWord(level: nat, s: seq<byte>, frame: seq<byte>, ts: seq<Token>, i: nat, src: nat)
    requires At(level, frame, ts, i, i, 0, src, 1) && i < |ts|
    requires Describes(level, s, ts) && Span(ts) == |s| && Span(ts[..i]) + 11 > |s|
    ensures At(level, frame, ts, i, i + GroupEnd(ts[i..]), GROUP, src + CWORD_LEN, 0x8000_0000)
  {
    hide Describes, Span, Rest, Val, LE, Flags, Pow2;
    AtWord(level, frame, ts, i, src);
    var e := i + GroupEnd(ts[i..]);
    forall j | 0 <= j < e - i
      ensures ts[i..e][j].Lit?
    {
      OnlyLits(level, s, ts, i, i + j);
    }
    NoFlags(ts[i..e]);
    Pow2Values();
  }

  /** Decompression of a packed frame. */
  method Unpack(frame: seq<byte>, level: nat, size: nat, ghost s: seq<byte>,
                ghost ts: seq<Token>) returns (plain: seq<byte>)
    requires IsPacked(frame, level, s, ts) && size == |s|
    ensures plain == s
  {
    hide Describes, Span, Word, Rest, Hash, LastStart, Starts, Val, LE, Layout, Header;
    var dest := new byte[size](_ => 0);
    var tab := new nat[HASH_VALUES](_ => 0);
    var lastMatchStart := size - UNCONDITIONAL_MATCHLEN - UNCOMPRESSED_END - 1;
    var src: nat, dst: nat, cwordVal: nat, fetch: nat, lastHashed := HEADER_LEN, 0, 1, 0, -1;
    ghost var i: nat, e: nat, k: nat := 0, 0, 0;
    AtStart(frame, level, s, ts, tab[..]);
    while true
      invariant Reading(level, s, frame, ts, i, e, k, src, cwordVal, dst, fetch)
      invariant dest[..dst] == s[..dst]
      invariant level == 1 ==> -1 <= lastHashed && Hashed(s, Starts(ts[..i]), lastHashed, tab[..])
      invariant level == 1 ==> Lag(Starts(ts[..i]), lastHashed, dst)
      decreases |s| - dst
    {
      MoreTokens(level, s, frame, ts, i, e, k, src, cwordVal, dst, fetch);
      if cwordVal == 1 {
        src, cwordVal, fetch, e := ReadWord(level, frame, lastMatchStart, src, dst, fetch, s, ts, i);
        k := GROUP;
      }
      if cwordVal % 2 == 1 {
        src, dst, fetch, lastHashed := TakeRef(level, frame, dest, tab, src, cwordVal, dst, fetch, lastHashed, s, ts,
                                               i, e, k);
        cwordVal := cwordVal / 2;
      } else if dst <= lastMatchStart {
        fetch, lastHashed := TakeLit(level, frame, dest, tab, src, cwordVal, dst, fetch, lastHashed, s, ts, i, e, k);
        src, dst, cwordVal := src + 1, dst + 1, cwordVal / 2;
      } else {
        TakeTail(level, frame, dest, src, cwordVal, dst, s, ts, i, e, k);
        return dest[..];
      }
      i, k := i + 1, k - 1;
    }
  }

  lemma AtStart(frame: seq<byte>, level: nat, s: seq<byte>, ts: seq<Token>, tab: seq<nat>)
    requires IsPacked(frame, level, s, ts) && |tab| == HASH_VALUES
    ensures Reading(level, s, frame, ts, 0, 0, 0, HEADER_LEN, 1, 0, 0)
    ensures Hashed(s, Starts(ts[..0]), -1, tab) && Lag(Starts(ts[..0]), -1, 0)
  {
    assert ts[..0] == [] && ts[0..0] == [] && ts[0..] == ts;
    CodesNil(level);
    assert frame[HEADER_LEN..] == Layout(level, ts);
    assert Rest(level, ts, 0, 0) == [] + Layout(level, ts);
  }

  // ----- whole frames

  function HeaderLen(frame: seq<byte>): nat
    requires frame != []
  {
    if frame[0] / 2 % 2 == 1 then 9 else 3
  }

  /** The plaintext length a frame announces. */
  method SizeDecompressed(frame: seq<byte>, ghost level: nat, ghost s: seq<byte>) returns (n: nat)
    requires |frame| >= HEADER_LEN
    ensures IsFrame(frame, level, s) && |s| < 0x1_0000_0000 ==> n == |s|
  {
    if IsFrame(frame, level, s) && |s| < 0x1_0000_0000 {
      FrameHeader(frame, level, s);
    }
    if HeaderLen(frame) == 9 {
      n := FastRead(frame, 5, 4);
    } else {
      n := FastRead(frame, 2, 1);
    }
  }

  /** The frame length a frame announces. */
  method SizeCompressed(frame: seq<byte>, ghost level: nat, ghost s: seq<byte>) returns (n: nat)
    requires HEADER_LEN <= |frame| < 0x1_0000_0000
    ensures IsFrame(frame, level, s) && |s| < 0x1_0000_0000 ==> n == |frame|
  {
    if IsFrame(frame, level, s) && |s| < 0x1_0000_0000 {
      FrameHeader(frame, level, s);
    }
    if HeaderLen(frame) == 9 {
      n := FastRead(frame, 1, 4);
    } else {
      n := FastRead(frame, 1, 1);
    }
  }

  lemma FrameHeader(frame: seq<byte>, level: nat, s: seq<byte>)
    requires IsFrame(frame, level, s) && |s| < 0x1_0000_0000
    ensures |frame| >= HEADER_LEN && HeaderLen(frame) == 9 && frame[0] / 4 % 4 == level
    ensures Val(frame[5..9]) == |s|
    ensures |frame| < 0x1_0000_0000 ==> Val(frame[1..5]) == |frame|
    ensures frame[0] % 2 == 1 ==> exists ts :: IsPacked(frame, level, s, ts)
    ensures frame[0] % 2 == 0 ==> frame[HEADER_LEN..] == s
  {
    hide Describes, Span, Layout, LE, Val;
    var compressed := !IsStored(frame, level, s);
    ghost var ts: seq<Token> := if compressed then (var ts :| IsPacked(frame, level, s, ts); ts) else [];
    var body := if compressed then Layout(level, ts) else s;
    var h := Header(level, compressed, HEADER_LEN + |body|, |s|);
    assert frame == h + body;
    assert frame[0] == h[0] && frame[HEADER_LEN..] == body;
    assert frame[1..5] == h[1..5] == LE(HEADER_LEN + |body|, 4);
    assert frame[5..9] == h[5..9] == LE(|s|, 4);
    Pow256Values();
    ValLE(|s|, 4);
    ValLE(HEADER_LEN + |body|, 4);
  }

  /** QuickLZ decompression of a frame. */
  method Decompress(frame: seq<byte>, ghost level: nat, ghost s: seq<byte>) returns (plain: seq<byte>)
    requires IsFrame(frame, level, s) && |s| < 0x1_0000_0000
    ensures plain == s
  {
    hide IsPacked, Val;
    FrameHeader(frame, level, s);
    var size := SizeDecompressed(frame, level, s);
    var lvl := frame[0] / 4 % 4;
    if frame[0] % 2 != 1 {
      return frame[HeaderLen(frame)..];
    }
    ghost var ts :| IsPacked(frame, level, s, ts);
    plain := Unpack(frame, lvl, size, s, ts);
  }

  /** Compression followed by decompression is the identity, at both levels, on
      every non-empty source whose length fits the header. */
  method RoundTrip(s: seq<byte>, level: nat) returns (plain: seq<byte>)
    requires (level == 1 || level == 3) && s != [] && |s| + HEADER_LEN < 0x1_0000_0000
    ensures plain == s
  {
    var frame := Compress(s, level);
    plain := Decompress(frame, level, s);
  }
}
