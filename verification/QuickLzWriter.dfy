/**
  The compressor's output side: byte-wise integer access and the control word
  that is patched in behind the codes it describes.
*/
module QuickLzWriter {
  import opened Bytes
  import opened Bits
  import opened QuickLzFormat

  method FastRead(a: seq<byte>, i: nat, numbytes: nat) returns (l: nat)
    requires i + numbytes <= |a|
    ensures l == Val(a[i..i + numbytes])
  {
    hide Val, Pow256;
    l := 0;
    var weight: nat := 1;
    NoBytes(a, i);
    for j := 0 to numbytes
      invariant l == Val(a[i..i + j]) && weight == Pow256(j)
    {
      OneMore(a, i, j);
      l := l + a[i + j] * weight;
      weight := weight * 256;
    }
  }

  lemma NoBytes(a: seq<byte>, i: nat)
    requires i <= |a|
    ensures Val(a[i..i + 0]) == 0 && Pow256(0) == 1
  {
  }

  lemma OneMore(a: seq<byte>, i: nat, j: nat)
    requires i + j < |a|
    ensures Val(a[i..i + (j + 1)]) == Val(a[i..i + j]) + a[i + j] * Pow256(j)
    ensures Pow256(j + 1) == Pow256(j) * 256
  {
    var b := [a[i + j]];
    ValConcat(a[i..i + j], b);
    assert a[i..i + (j + 1)] == a[i..i + j] + b;
    assert Val(b[1..]) == 0;
    assert Val(b) == a[i + j];
  }

  method FastWrite(a: array<byte>, i: nat, value: nat, numbytes: nat)
    requires i + numbytes <= a.Length
    modifies a
    ensures a[..] == old(a[..i]) + LE(value, numbytes) + old(a[i + numbytes..])
  {
    hide LE;
    var v := value;
    ghost var written: seq<byte> := [];
    for j := 0 to numbytes
      invariant |written| == j && written + LE(v, numbytes - j) == LE(value, numbytes)
      invariant a[..] == old(a[..i]) + written + old(a[i + j..])
    {
      ghost var before := a[..];
      FirstByte(v, numbytes - j);
      ConcatAssoc(written, [v % 256], LE(v / 256, numbytes - j - 1));
      a[i + j] := v % 256;
      assert a[..] == before[i + j := v % 256];
      NextByte(old(a[..]), before, written, i, j, v % 256);
      written := written + [v % 256];
      v := v / 256;
    }
    assert written == LE(value, numbytes);
  }

  lemma FirstByte(v: nat, n: nat)
    requires n > 0
    ensures LE(v, n) == [v % 256] + LE(v / 256, n - 1)
  {
  }

  lemma NextByte(was: seq<byte>, b: seq<byte>, written: seq<byte>, i: nat, j: nat, x: byte)
    requires i + j < |was| && |written| == j && b == was[..i] + written + was[i + j..]
    ensures b[i + j := x] == was[..i] + (written + [x]) + was[i + (j + 1)..]
  {
  }

  /** A control word under construction: the flags so far at the top, then the
      marker bit, then zeros. */
  function Shifted(cur: seq<Token>): nat
    requires |cur| <= GROUP
  {
    Pow2(GROUP - |cur|) * (1 + 2 * Flags(cur))
  }

  lemma Halve(a: nat, f: nat)
    ensures (2 * a) * (1 + 2 * f) % 2 == 0 && (2 * a) * (1 + 2 * f) / 2 == a * (1 + 2 * f)
  {
    assert (2 * a) * (1 + 2 * f) == 2 * (a * (1 + 2 * f));
  }

  lemma Distribute(a: nat, f: nat, b: nat, flag: nat)
    ensures a * (1 + 2 * (f + flag * b)) == a * (1 + 2 * f) + flag * (a * (2 * b))
  {
    assert a * (1 + 2 * (f + flag * b)) == a * (1 + 2 * f) + a * (2 * (flag * b));
    assert a * (2 * (flag * b)) == flag * (a * (2 * b));
  }

  /** Bit 0 of the word is set exactly when the marker got there. */
  lemma ShiftedFull(cur: seq<Token>)
    requires |cur| <= GROUP
    ensures Shifted(cur) % 2 == 1 <==> |cur| == GROUP
    ensures |cur| == GROUP ==> Shifted(cur) / 2 == Flags(cur)
  {
    if |cur| < GROUP {
      Halve(Pow2(GROUP - |cur| - 1), Flags(cur));
    }
  }

  lemma ShiftedSnoc(cur: seq<Token>, t: Token)
    requires |cur| < GROUP
    ensures Shifted(cur + [t]) == Shifted(cur) / 2 + Flag(t) * 0x8000_0000
  {
    var a, b := Pow2(GROUP - |cur| - 1), Pow2(|cur|);
    Pow2Sum(GROUP - |cur| - 1, |cur| + 1);
    Pow2Values();
    FlagsSnoc(cur, t);
    Halve(a, Flags(cur));
    Distribute(a, Flags(cur), b, Flag(t));
    assert Pow2(|cur| + 1) == 2 * b;
  }

  /** b holds the whole groups `done`, then a gap for a control word at `ptr`,
      then the codes of the open group `cur`, which end at `dst`. */
  ghost predicate Open(level: nat, b: seq<byte>, ptr: nat, dst: nat, done: seq<Token>, cur: seq<Token>) {
    && |done| % GROUP == 0 && |cur| <= GROUP
    && HEADER_LEN <= ptr && ptr + CWORD_LEN <= dst <= |b|
    && b[HEADER_LEN..ptr] == FullGroups(level, done)
    && b[ptr + CWORD_LEN..dst] == Codes(level, cur)
  }

  lemma OpenPut(level: nat, b: seq<byte>, ptr: nat, dst: nat, done: seq<Token>, cur: seq<Token>,
                t: Token, code: seq<byte>, b': seq<byte>)
    requires Open(level, b, ptr, dst, done, cur) && |cur| < GROUP
    requires code == Code(level, t) && dst + |code| <= |b|
    requires b' == b[..dst] + code + b[dst + |code|..]
    ensures Open(level, b', ptr, dst + |code|, done, cur + [t])
  {
    hide FullGroups, Codes, Code, Shifted;
    CodesSnoc(level, cur, t);
    Splice(b, dst, code, b', HEADER_LEN, ptr);
    Splice(b, dst, code, b', ptr + CWORD_LEN, dst);
  }

  /** Patching the word in makes the buffer a run of whole groups. */
  lemma OpenClose(level: nat, b: seq<byte>, ptr: nat, dst: nat, done: seq<Token>, cur: seq<Token>,
                  word: seq<byte>, b': seq<byte>)
    requires Open(level, b, ptr, dst, done, cur)
    requires word == LE(Word(cur, GROUP), CWORD_LEN)
    requires b' == b[..ptr] + word + b[ptr + CWORD_LEN..]
    ensures b'[HEADER_LEN..dst] == FullGroups(level, done) + Group(level, cur)
  {
    hide FullGroups, Codes, LE;
    assert b'[HEADER_LEN..dst] == b[HEADER_LEN..ptr] + (word + b[ptr + CWORD_LEN..dst]);
  }

  lemma EmptyGroup(level: nat)
    ensures Codes(level, []) == [] && Shifted([]) == 0x8000_0000
  {
    Pow2Values();
  }

  class Writer {
    const level: nat
    const buf: array<byte>
    var dst: nat
    var cwordPtr: nat
    var cwordVal: nat
    ghost var done: seq<Token>  // tokens of the groups whose word is written
    ghost var cur: seq<Token>   // tokens of the open group

    ghost predicate Valid()
      reads this, buf
    {
      Open(level, buf[..], cwordPtr, dst, done, cur) && cwordVal == Shifted(cur)
    }

    ghost function Tokens(): seq<Token>
      reads this
    {
      done + cur
    }

    constructor (level: nat, size: nat)
      requires size >= HEADER_LEN + CWORD_LEN
      ensures Valid() && fresh(buf) && done == cur == []
      ensures this.level == level && buf.Length == size && dst == HEADER_LEN + CWORD_LEN
    {
      this.level := level;
      buf := new byte[size](_ => 0);
      cwordPtr, dst, cwordVal := HEADER_LEN, HEADER_LEN + CWORD_LEN, 0x8000_0000;
      done, cur := [], [];
      EmptyGroup(level);
    }

    /** Bit 0 of the word says whether the open group is full. */
    lemma GroupRoom()
      requires Valid()
      ensures |cur| <= GROUP && (cwordVal % 2 == 1 <==> |cur| == GROUP)
    {
      ShiftedFull(cur);
    }

    /** Closes a full group and opens the next. */
    method NextWord()
      requires Valid() && cwordVal % 2 == 1 && dst + CWORD_LEN <= buf.Length
      modifies this`dst, this`cwordPtr, this`cwordVal, this`done, this`cur, buf
      ensures Valid() && done == old(done + cur) && cur == [] && |old(cur)| == GROUP
      ensures Tokens() == old(Tokens())
      ensures dst == old(dst) + CWORD_LEN
    {
      hide Group, LE, FullGroups, Codes, Pow2, Flags;
      ShiftedFull(cur);
      Pow2Values();
      EmptyGroup(level);
      FastWrite(buf, cwordPtr, cwordVal / 2 + 0x8000_0000, CWORD_LEN);
      OpenClose(level, old(buf[..]), cwordPtr, dst, done, cur, LE(Word(cur, GROUP), CWORD_LEN), buf[..]);
      FullGroupsSnoc(level, done, cur);
      done, cur := done + cur, [];
      cwordPtr := dst;
      dst := dst + CWORD_LEN;
      cwordVal := 0x8000_0000;
      assert done + cur == done;
    }

    /** Appends one token: its code at dst, its flag in the control word. */
    method Put(code: nat, width: nat, isMatch: bool, ghost t: Token)
      requires Valid() && |cur| < GROUP
      requires Code(level, t) == LE(code, width) && isMatch == t.Ref?
      requires dst + width <= buf.Length
      modifies this`dst, this`cwordVal, this`cur, buf
      ensures Valid() && cur == old(cur) + [t] && Tokens() == old(Tokens()) + [t]
      ensures dst == old(dst) + width
    {
      hide Group, LE, FullGroups, Codes, Shifted;
      FastWrite(buf, dst, code, width);
      OpenPut(level, old(buf[..]), cwordPtr, dst, done, cur, t, LE(code, width), buf[..]);
      ShiftedSnoc(cur, t);
      ConcatAssoc(done, cur, [t]);
      cur := cur + [t];
      dst := dst + width;
      cwordVal := cwordVal / 2 + (if isMatch then 0x8000_0000 else 0);
    }
  }
}
