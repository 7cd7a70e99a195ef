/**
  Data files: the on-disk record format, random access reads, and the stream
  reader that skips damaged blocks.
*/
module Records {
  import opened Bytes
  import opened Checksum

  const RECORD_HEADER := 24
  const PADDING := 256

  /** The configured limits on sizes; every result holds for all of them. */
  const MAX_KEY_LEN: byte
  const BODY_MAX: i32

  datatype Record = Record(key: seq<byte>, ts: u32, flag: u32, ver: i32, body: seq<byte>)

  predicate ValidKeySize(ksz: nat) {
    ksz != 0 && ksz <= MAX_KEY_LEN
  }

  predicate ValidValueSize(vsz: nat) {
    vsz <= BODY_MAX
  }

  /** What a client may store. */
  predicate Storable(r: Record) {
    0 < |r.key| <= MAX_KEY_LEN && |r.body| <= BODY_MAX
  }

  // ----- record format

  function Padded(n: nat): (m: nat)
    ensures n <= m < n + PADDING && m % PADDING == 0
  {
    (n + 255) / PADDING * PADDING
  }

  /** In a file of whole blocks there is room for the padding. */
  lemma PaddedInside(p: nat, n: nat, size: nat)
    requires p % PADDING == 0 && size % PADDING == 0 && p + n <= size
    ensures p + Padded(n) <= size && (p + Padded(n)) % PADDING == 0
  {
    hide Padded;
    var a, b, c := p / PADDING, Padded(n) / PADDING, size / PADDING;
    assert p == a * PADDING && Padded(n) == b * PADDING && size == c * PADDING;
    DivMod(p + Padded(n), a + b, PADDING, 0);
  }

  /** Bytes of a record without and with padding. */
  function RealSize(r: Record): nat {
    RECORD_HEADER + |r.key| + |r.body|
  }

  function Size(r: Record): (n: nat)
    ensures n % PADDING == 0 && n >= PADDING
  {
    Padded(RealSize(r))
  }

  function Zeros(n: nat): (s: seq<byte>)
    ensures |s| == n
  {
    seq(n, _ => 0)
  }

  /** The header after its checksum field. */
  function Meta(r: Record): (h: seq<byte>)
    ensures |h| == RECORD_HEADER - 4
  {
    LE(r.ts, 4) + LE(r.flag, 4) + LE(U32(r.ver), 4) + LE(|r.key|, 4) + LE(|r.body|, 4)
  }

  function Checked(r: Record): (s: seq<byte>)
    ensures |s| == RealSize(r) - 4
  {
    Meta(r) + r.key + r.body
  }

  function Encode(r: Record): (s: seq<byte>)
    ensures |s| == Size(r)
  {
    LE(Crc(Checked(r)), 4) + Checked(r) + Zeros(Size(r) - RealSize(r))
  }

  function Field(file: seq<byte>, at: nat): (v: u32)
    requires at + 4 <= |file|
  {
    ValBound(file[at..at + 4]);
    Pow256Values();
    Val(file[at..at + 4])
  }

  /** The record at an offset of a file, if there is an intact one. */
  function ReadAt(file: seq<byte>, off: nat): (r: Option<Record>) {
    if off + RECORD_HEADER > |file| then None
    else
      var ksz, vsz := Field(file, off + 16), Field(file, off + 20);
      if !ValidKeySize(ksz) || !ValidValueSize(vsz) then None
      else if off + RECORD_HEADER + ksz + vsz > |file| then None
      else
        var kv := off + RECORD_HEADER;
        if Field(file, off) != Crc(file[off + 4..kv + ksz + vsz]) then None
        else Some(Record(file[kv..kv + ksz], Field(file, off + 4), Field(file, off + 8),
                         I32(Field(file, off + 12)), file[kv + ksz..kv + ksz + vsz]))
  }

  /** The file holds the bytes of r at off. */
  ghost predicate Holds(file: seq<byte>, off: nat, r: Record) {
    off + Size(r) <= |file| && file[off..off + Size(r)] == Encode(r)
  }

  /** Cutting a piece out of a piece. */
  lemma FieldOf(v: u32)
    ensures Val(LE(v, 4)) == v
  {
    Pow256Values();
    ValLE(v, 4);
  }

  lemma EncodeParts(r: Record)
    ensures var e := Encode(r); var n := RealSize(r);
            && e[0..4] == LE(Crc(Checked(r)), 4) && e[4..n] == Checked(r)
            && e[4..8] == LE(r.ts, 4) && e[8..12] == LE(r.flag, 4) && e[12..16] == LE(U32(r.ver), 4)
            && e[16..20] == LE(|r.key|, 4) && e[20..24] == LE(|r.body|, 4)
            && e[24..24 + |r.key|] == r.key && e[24 + |r.key|..n] == r.body
  {
    hide LE, Crc;
    var e, n := Encode(r), RealSize(r);
    assert e[4..n] == Checked(r);
    var c := Checked(r);
    assert c[..20] == Meta(r);
    assert e[4..8] == c[..20][0..4] && e[8..12] == c[..20][4..8] && e[12..16] == c[..20][8..12];
    assert e[16..20] == c[..20][12..16] && e[20..24] == c[..20][16..20];
  }

  /** Whatever was written is read back, wherever it lies. */
  lemma HoldsRead(file: seq<byte>, off: nat, r: Record)
    requires Holds(file, off, r) && Storable(r)
    ensures ReadAt(file, off) == Some(r)
  {
    EncodeParts(r);
    hide Encode, LE, Crc, Val;
    var n := Size(r);
    var k, v := |r.key|, |r.body|;
    SubSlice(file, off, n, 0, 4);
    SubSlice(file, off, n, 4, 8);
    SubSlice(file, off, n, 8, 12);
    SubSlice(file, off, n, 12, 16);
    SubSlice(file, off, n, 16, 20);
    SubSlice(file, off, n, 20, 24);
    SubSlice(file, off, n, 24, 24 + k);
    SubSlice(file, off, n, 24 + k, 24 + k + v);
    SubSlice(file, off, n, 4, 24 + k + v);
    FieldOf(Crc(Checked(r)));
    FieldOf(r.ts);
    FieldOf(r.flag);
    FieldOf(U32(r.ver));
    FieldOf(k);
    FieldOf(v);
  }

  /** Only checksummed bytes are ever returned as a record, and they are the
      unpadded bytes of that record. */
  lemma ReadHolds(file: seq<byte>, off: nat)
    requires ReadAt(file, off).Some?
    ensures var r := ReadAt(file, off).value;
            && Storable(r) && off + RealSize(r) <= |file|
            && file[off..off + RealSize(r)] == LE(Crc(Checked(r)), 4) + Checked(r)
  {
    hide LE, Crc, Val;
    var r := ReadAt(file, off).value;
    var n, kv := off + RealSize(r), off + RECORD_HEADER;
    LEVal(file[off..off + 4]);
    LEVal(file[off + 4..off + 8]);
    LEVal(file[off + 8..off + 12]);
    LEVal(file[off + 12..off + 16]);
    LEVal(file[off + 16..off + 20]);
    LEVal(file[off + 20..off + 24]);
    assert file[off + 4..kv] == Meta(r);
    assert file[off + 4..n] == file[off + 4..kv] + r.key + r.body;
    assert file[off..n] == file[off..off + 4] + file[off + 4..n];
  }

  /** A record with one damaged byte, outside the two size fields, is not read. */
  lemma DamageDetected(file: seq<byte>, off: nat, i: nat, b: byte)
    requires ReadAt(file, off).Some? && off <= i < off + RealSize(ReadAt(file, off).value)
    requires !(off + 16 <= i < off + 24) && i < |file| && file[i] != b
    ensures ReadAt(file[i := b], off) == None
  {
    hide Crc, Val;
    var file', r := file[i := b], ReadAt(file, off).value;
    var n := off + RealSize(r);
    assert file'[off + 16..off + 20] == file[off + 16..off + 20];
    assert file'[off + 20..off + 24] == file[off + 20..off + 24];
    if i < off + 4 {
      assert file'[off + 4..n] == file[off + 4..n];
      LEVal(file[off..off + 4]);
      LEVal(file'[off..off + 4]);
      assert file'[off..off + 4][i - off] != file[off..off + 4][i - off];
    } else {
      assert file'[off..off + 4] == file[off..off + 4];
      assert file'[off + 4..n] == file[off + 4..n][i - off - 4 := b];
      OneByte(file[off + 4..n], i - off - 4, b);
    }
  }

  // ----- writing

  /** Four bytes replaced. */
  function Patched(s: seq<byte>, at: nat, v: u32): (t: seq<byte>)
    requires at + 4 <= |s|
    ensures |t| == |s|
  {
    s[..at] + LE(v, 4) + s[at + 4..]
  }

  method PutU32(h: array<byte>, at: nat, v: u32)
    requires at + 4 <= h.Length
    modifies h
    ensures h[..] == Patched(old(h[..]), at, v)
  {
    assert LE(v, 4) == [v % 256, v / 256 % 256, v / 256 / 256 % 256, v / 256 / 256 / 256 % 256] by {
      assert LE(v / 256 / 256 / 256, 1) == [v / 256 / 256 / 256 % 256] + LE(v / 256 / 256 / 256 / 256, 0);
      assert LE(v / 256 / 256, 2) == [v / 256 / 256 % 256] + LE(v / 256 / 256 / 256, 1);
      assert LE(v / 256, 3) == [v / 256 % 256] + LE(v / 256 / 256, 2);
    }
    h[at] := v % 256;
    h[at + 1] := v / 256 % 256;
    h[at + 2] := v / 256 / 256 % 256;
    h[at + 3] := v / 256 / 256 / 256 % 256;
  }

  /** Fills the header in place: the checksum last, over everything after it. */
  method EncodeHeader(h: array<byte>, r: Record)
    requires h.Length == RECORD_HEADER && Storable(r)
    modifies h
    ensures h[..] == LE(Crc(Checked(r)), 4) + Meta(r)
  {
    hide LE, Crc, Meta, Storable, Patched;
    SizesFit(r);
    ghost var s0 := h[..];
    PutU32(h, 4, r.ts);
    PutU32(h, 8, r.flag);
    PutU32(h, 12, U32(r.ver));
    PutU32(h, 16, |r.key|);
    PutU32(h, 20, |r.body|);
    FiveFields(r, s0);
    ghost var s5 := h[..];
    assert h[4..] == s5[4..];
    var crc := ThreePieces(h[4..], r.key, r.body);
    PutU32(h, 0, crc);
    Front(s5, Crc(Checked(r)));
  }

  lemma Front(s: seq<byte>, v: u32)
    requires |s| >= 4
    ensures Patched(s, 0, v) == LE(v, 4) + s[4..]
  {
    assert s[..0] == [];
  }

  lemma SizesFit(r: Record)
    requires Storable(r)
    ensures |r.key| < 0x1_0000_0000 && |r.body| < 0x1_0000_0000
  {
  }

  lemma FiveFields(r: Record, s0: seq<byte>)
    requires |s0| == RECORD_HEADER && |r.key| < 0x1_0000_0000 && |r.body| < 0x1_0000_0000
    ensures var s3 := Patched(Patched(Patched(s0, 4, r.ts), 8, r.flag), 12, U32(r.ver));
            Patched(Patched(s3, 16, |r.key|), 20, |r.body|)[4..] == Meta(r)
  {
    hide LE;
    var s1 := Patched(s0, 4, r.ts);
    Splice(s0, 4, LE(r.ts, 4), s1, 4, 4);
    var s2 := Patched(s1, 8, r.flag);
    Splice(s1, 8, LE(r.flag, 4), s2, 4, 8);
    var s3 := Patched(s2, 12, U32(r.ver));
    Splice(s2, 12, LE(U32(r.ver), 4), s3, 4, 12);
    var s4 := Patched(s3, 16, |r.key|);
    Splice(s3, 16, LE(|r.key|, 4), s4, 4, 16);
    var s5 := Patched(s4, 20, |r.body|);
    Splice(s4, 20, LE(|r.body|, 4), s5, 4, 20);
    assert s5[4..] == s5[4..24];
  }

  /** Appends one record with its padding. */
  method AppendTo(wbuf: seq<byte>, r: Record) returns (out: seq<byte>)
    requires Storable(r)
    ensures out == wbuf + Encode(r)
  {
    hide LE, Crc, Meta, Padded;
    var header := new byte[RECORD_HEADER](_ => 0);
    EncodeHeader(header, r);
    var rec := header[..] + r.key + r.body;
    assert rec == LE(Crc(Checked(r)), 4) + Checked(r);
    var npad := Size(r) - RealSize(r);
    if npad != 0 {
      rec := rec + Zeros(npad);
    }
    out := wbuf + rec;
  }

  // ----- files of whole records

  function EncodeAll(rs: seq<Record>): (s: seq<byte>) {
    if rs == [] then [] else EncodeAll(rs[..|rs| - 1]) + Encode(rs[|rs| - 1])
  }

  /** Where the i-th record of a file starts. */
  function Offset(rs: seq<Record>, i: nat): nat
    requires i <= |rs|
  {
    |EncodeAll(rs[..i])|
  }

  lemma {:induction false} EncodeAllAligned(rs: seq<Record>)
    ensures |EncodeAll(rs)| % PADDING == 0
  {
    hide Encode;
    if rs != [] {
      EncodeAllAligned(rs[..|rs| - 1]);
      var a, b := |EncodeAll(rs[..|rs| - 1])|, Size(rs[|rs| - 1]);
      DivMod(a + b, a / PADDING + b / PADDING, PADDING, 0);
    }
  }

  lemma EncodeAllSnoc(rs: seq<Record>, r: Record)
    ensures EncodeAll(rs + [r]) == EncodeAll(rs) + Encode(r)
  {
    assert (rs + [r])[..|rs|] == rs;
  }

  lemma {:induction false} EncodeAllAt(rs: seq<Record>, i: nat)
    requires i < |rs|
    ensures Offset(rs, i + 1) == Offset(rs, i) + Size(rs[i])
    ensures Holds(EncodeAll(rs), Offset(rs, i), rs[i])
  {
    hide Encode, Size;
    var m := |rs| - 1;
    var pre := rs[..m];
    if i < m {
      EncodeAllAt(pre, i);
      assert pre[..i] == rs[..i] && pre[..i + 1] == rs[..i + 1];
    } else {
      assert rs[..i + 1] == rs;
    }
  }

  /** Overwriting elsewhere keeps a record intact. */
  lemma HoldsExtend(a: seq<byte>, b: seq<byte>, off: nat, r: Record)
    requires Holds(a, off, r)
    ensures Holds(a + b, off, r)
  {
    assert (a + b)[off..off + Size(r)] == a[off..off + Size(r)];
  }
}
