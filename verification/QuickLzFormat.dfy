/**
  The QuickLZ 1.5.0 frame as a mathematical object: a token sequence that tiles
  a plaintext, its match codes, its 31-token control words and its header.

  This is the reference both the compressor and the decompressor are proved
  against; neither of them is mentioned here.
*/
module QuickLzFormat {
  import opened Bytes
  import opened Bits

  const HASH_VALUES := 4096
  const UNCONDITIONAL_MATCHLEN := 6
  const UNCOMPRESSED_END := 4
  const CWORD_LEN := 4
  const HEADER_LEN := 9
  const GROUP := 31

  /** A literal byte, or a back reference: `arg` is a distance at level 3 and a
      hash value at level 1. */
  datatype Token = Lit(b: byte) | Ref(len: nat, arg: nat)

  // ----- tokens and the plaintext they stand for

  function TokenLen(t: Token): nat {
    if t.Lit? then 1 else t.len
  }

  /** The number of plaintext bytes a token sequence covers. */
  function Span(ts: seq<Token>): nat {
    if ts == [] then 0 else Span(ts[..|ts| - 1]) + TokenLen(ts[|ts| - 1])
  }

  /** The table slot of a three-byte window: its high half xor its low half. */
  function Hash(fetch: nat): (h: nat)
    ensures h < HASH_VALUES
  {
    XorBound(fetch / 4096, fetch, 12);
    Pow2Values();
    Xor(fetch / 4096, fetch, 12)
  }

  /** Bit k of the slot is bit k of the window xor bit k + 12. */
  lemma HashBits(fetch: nat, k: nat)
    requires k < 12
    ensures Bit(Hash(fetch), k) == (Bit(fetch / 4096, k) + Bit(fetch, k)) % 2
  {
    XorBits(fetch / 4096, fetch, 12, k);
  }

  function Window(s: seq<byte>, q: int): nat
    requires 0 <= q && q + 3 <= |s|
  {
    Val(s[q..q + 3])
  }

  /** The greatest token start q <= bound whose window hashes to h; -1 if none. */
  function LastStart(s: seq<byte>, ts: seq<Token>, bound: int, h: nat): (q: int)
    ensures -1 <= q && (q >= 0 ==> q <= bound && q + 3 <= |s| && Hash(Window(s, q)) == h)
    ensures q >= 0 ==> q <= Span(ts)
  {
    if ts == [] then -1
    else
      var q := Span(ts[..|ts| - 1]);
      if q <= bound && q + 3 <= |s| && Hash(Window(s, q)) == h then q
      else LastStart(s, ts[..|ts| - 1], bound, h)
  }

  /** The len bytes at p repeat those at q; the two ranges may overlap. */
  ghost predicate Repeats(s: seq<byte>, q: int, p: int, len: nat) {
    && 0 <= q < p && p + len <= |s|
    && forall k :: p <= k < p + len ==> s[k] == s[k - p + q]
  }

  /** t, placed after pre, describes the bytes of s it covers. A level-1
      reference names a hash; it stands for the last token start at least three
      bytes back that has this hash. */
  ghost predicate TokenOk(level: nat, s: seq<byte>, pre: seq<Token>, t: Token) {
    var p := Span(pre);
    match t
    case Lit(b) => p < |s| && s[p] == b
    case Ref(len, arg) =>
      && p + UNCONDITIONAL_MATCHLEN + UNCOMPRESSED_END + 1 <= |s|
      && 3 <= len <= 255 && p + len + UNCOMPRESSED_END <= |s|
      && if level == 1
         then arg < HASH_VALUES && Repeats(s, LastStart(s, pre, p - 3, arg), p, len)
         else 3 <= arg < 131071 && Repeats(s, p - arg, p, len)
  }

  /** ts describes the first Span(ts) bytes of s. */
  ghost predicate Describes(level: nat, s: seq<byte>, ts: seq<Token>) {
    ts == [] || (
      && Describes(level, s, ts[..|ts| - 1])
      && TokenOk(level, s, ts[..|ts| - 1], ts[|ts| - 1]))
  }

  lemma DescribesSnoc(level: nat, s: seq<byte>, ts: seq<Token>, t: Token)
    requires Describes(level, s, ts) && TokenOk(level, s, ts, t)
    ensures Describes(level, s, ts + [t]) && Span(ts + [t]) == Span(ts) + TokenLen(t)
  {
    assert (ts + [t])[..|ts|] == ts;
  }

  lemma {:induction false} DescribesAt(level: nat, s: seq<byte>, ts: seq<Token>, i: nat)
    requires Describes(level, s, ts) && i < |ts|
    ensures TokenOk(level, s, ts[..i], ts[i]) && Span(ts[..i + 1]) == Span(ts[..i]) + TokenLen(ts[i])
    ensures Span(ts[..i + 1]) <= Span(ts)
  {
    var last := |ts| - 1;
    if i == last {
      assert ts[..i + 1] == ts;
    } else {
      DescribesAt(level, s, ts[..last], i);
      assert ts[..last][..i] == ts[..i] && ts[..last][..i + 1] == ts[..i + 1];
    }
  }

  // ----- match codes

  /** Match code at level 3 as (value, width in bytes). */
  function Code3(len: nat, off: nat): (nat, nat)
    requires 3 <= len <= 255
  {
    if len == 3 && off <= 63 then (off * 4, 1)
    else if len == 3 && off <= 16383 then (off * 4 + 1, 2)
    else if len <= 18 && off <= 1023 then ((len - 3) * 4 + off * 64 + 2, 2)
    else if len <= 33 then ((len - 2) * 4 + off * 128 + 3, 3)
    else ((len - 3) * 128 + off * 32768 + 3, 4)
  }

  /** Match code at level 1. */
  function Code1(len: nat, hash: nat): (nat, nat)
    requires 3 <= len <= 255
  {
    if len < 18 then (hash * 16 + (len - 2), 2) else (hash * 16 + len * 65536, 3)
  }

  function RefCode(level: nat, len: nat, arg: nat): (nat, nat)
    requires 3 <= len <= 255
  {
    if level == 1 then Code1(len, arg) else Code3(len, arg)
  }

  function Code(level: nat, t: Token): (c: seq<byte>)
    ensures 1 <= |c| <= 4
    ensures t.Lit? ==> |c| == 1
    ensures t.Ref? && 3 <= t.len ==> |c| <= t.len
  {
    match t
    case Lit(b) => [b]
    case Ref(len, arg) =>
      if 3 <= len <= 255 then var (v, n) := RefCode(level, len, arg); LE(v, n) else [0]
  }

  function Codes(level: nat, ts: seq<Token>): seq<byte> {
    if ts == [] then [] else Code(level, ts[0]) + Codes(level, ts[1..])
  }

  lemma {:induction false} CodesConcat(level: nat, a: seq<Token>, b: seq<Token>)
    ensures Codes(level, a + b) == Codes(level, a) + Codes(level, b)
  {
    hide Code;
    if a == [] {
      assert a + b == b;
      assert Codes(level, a) == [];
    } else {
      var first, rest := a[0], a[1..];
      CodesConcat(level, rest, b);
      assert (a + b)[0] == first && (a + b)[1..] == rest + b;
      ConcatAssoc(Code(level, first), Codes(level, rest), Codes(level, b));
    }
  }

  lemma CodesSnoc(level: nat, ts: seq<Token>, t: Token)
    ensures Codes(level, ts + [t]) == Codes(level, ts) + Code(level, t)
  {
    CodesConcat(level, ts, [t]);
    assert Codes(level, [t]) == Code(level, t) + Codes(level, []);
  }

  // ----- control words

  function Flag(t: Token): nat {
    if t.Ref? then 1 else 0
  }

  /** The tokens' match flags, first token in bit 0. */
  function Flags(ts: seq<Token>): nat {
    if ts == [] then 0 else Flag(ts[0]) + 2 * Flags(ts[1..])
  }

  /** A control word with `slots` unread bits left; the marker bit sits above them. */
  function Word(ts: seq<Token>, slots: nat): nat {
    Flags(ts) + Pow2(slots)
  }

  lemma {:induction false} FlagsBound(ts: seq<Token>)
    ensures Flags(ts) < Pow2(|ts|)
  {
    if ts != [] {
      FlagsBound(ts[1..]);
    }
  }

  lemma {:induction false} FlagsSnoc(ts: seq<Token>, t: Token)
    ensures Flags(ts + [t]) == Flags(ts) + Flag(t) * Pow2(|ts|)
  {
    if ts != [] {
      FlagsSnoc(ts[1..], t);
      assert (ts + [t])[1..] == ts[1..] + [t];
    } else {
      assert ts + [t] == [t];
      assert Flags([t][1..]) == 0;
    }
  }

  // ----- the body of a frame

  function GroupEnd(ts: seq<Token>): (e: nat)
    ensures e <= |ts| && e <= GROUP
  {
    if |ts| <= GROUP then |ts| else GROUP
  }

  function Group(level: nat, ts: seq<Token>): seq<byte> {
    LE(Word(ts, GROUP), CWORD_LEN) + Codes(level, ts)
  }

  /** Control word, up to 31 codes, control word, up to 31 codes, ... */
  function Layout(level: nat, ts: seq<Token>): seq<byte> {
    if |ts| <= GROUP then Group(level, ts)
    else Group(level, ts[..GROUP]) + Layout(level, ts[GROUP..])
  }

  /** Whole groups only. */
  function FullGroups(level: nat, ts: seq<Token>): seq<byte>
    requires |ts| % GROUP == 0
  {
    if ts == [] then [] else Group(level, ts[..GROUP]) + FullGroups(level, ts[GROUP..])
  }

  lemma {:induction false} FullGroupsSnoc(level: nat, done: seq<Token>, g: seq<Token>)
    requires |done| % GROUP == 0 && |g| == GROUP
    ensures FullGroups(level, done + g) == FullGroups(level, done) + Group(level, g)
  {
    hide Group;
    if done == [] {
      assert done + g == g && g[..GROUP] == g && g[GROUP..] == [];
      assert FullGroups(level, []) == [];
    } else {
      FullGroupsSnoc(level, done[GROUP..], g);
      ConcatAssoc(Group(level, done[..GROUP]), FullGroups(level, done[GROUP..]), Group(level, g));
      assert (done + g)[..GROUP] == done[..GROUP];
      assert (done + g)[GROUP..] == done[GROUP..] + g;
    }
  }

  lemma {:induction false} LayoutSplit(level: nat, done: seq<Token>, cur: seq<Token>)
    requires |done| % GROUP == 0 && 0 < |cur| <= GROUP
    ensures Layout(level, done + cur) == FullGroups(level, done) + Group(level, cur)
  {
    hide Group;
    if done == [] {
      assert done + cur == cur;
      assert FullGroups(level, []) == [];
    } else {
      var head, rest := done[..GROUP], done[GROUP..];
      LayoutSplit(level, rest, cur);
      LayoutCons(level, head, rest + cur);
      assert done + cur == head + (rest + cur);
      ConcatAssoc(Group(level, head), FullGroups(level, rest), Group(level, cur));
    }
  }

  lemma LayoutCons(level: nat, head: seq<Token>, rest: seq<Token>)
    requires |head| == GROUP && rest != []
    ensures Layout(level, head + rest) == Group(level, head) + Layout(level, rest)
  {
    assert (head + rest)[..GROUP] == head && (head + rest)[GROUP..] == rest;
  }

  // ----- frames

  function Header(level: nat, compressed: bool, total: nat, plain: nat): (h: seq<byte>)
    requires level == 1 || level == 3
    ensures |h| == HEADER_LEN
  {
    [(if compressed then 3 else 2) + level * 4 + 64] + LE(total, 4) + LE(plain, 4)
  }

  ghost predicate IsStored(frame: seq<byte>, level: nat, s: seq<byte>) {
    && (level == 1 || level == 3)
    && frame == Header(level, false, |s| + HEADER_LEN, |s|) + s
  }

  ghost predicate IsPacked(frame: seq<byte>, level: nat, s: seq<byte>, ts: seq<Token>) {
    && (level == 1 || level == 3)
    && Describes(level, s, ts) && Span(ts) == |s| && s != []
    && frame == Header(level, true, HEADER_LEN + |Layout(level, ts)|, |s|) + Layout(level, ts)
  }

  /** frame is a QuickLZ frame of the plaintext s. */
  ghost predicate IsFrame(frame: seq<byte>, level: nat, s: seq<byte>) {
    IsStored(frame, level, s) || exists ts :: IsPacked(frame, level, s, ts)
  }
}
