/**
  Which tokens a source has and when it is packed at all, as laws over the source alone:
  at every place the longest match among the candidates of the level is taken, and packing
  is given up when a full control word finds too little saved. They leave one frame for
  every source and level.
*/
module QuickLzGreedy {
  import opened Bytes
  import opened QuickLzFormat

  const MINOFFSET := 2
  const POINTERS_3 := 16
  const MAX_OFFSET := 131071

  /** A match may start at p. */
  predicate MayMatch(s: seq<byte>, p: nat) {
    p + UNCONDITIONAL_MATCHLEN + UNCOMPRESSED_END + 1 <= |s|
  }

  /** The length a match at p may have. */
  function Limit(s: seq<byte>, p: nat): int {
    if |s| - UNCOMPRESSED_END - p <= 255 then |s| - UNCOMPRESSED_END - p else 255
  }

  /** The match of p with q has this length. */
  ghost predicate Longest(s: seq<byte>, q: int, p: nat, len: nat) {
    && 3 <= len <= Limit(s, p) && Repeats(s, q, p, len)
    && forall m: nat :: m <= Limit(s, p) && Repeats(s, q, p, m) ==> m <= len
  }

  // ----- level 1

  /** The number of literals at the end. */
  function LitRun(ts: seq<Token>): (n: nat)
    ensures n <= |ts|
  {
    if ts == [] || ts[|ts| - 1].Ref? then 0 else 1 + LitRun(ts[..|ts| - 1])
  }

  /** The three bytes before p, as literals, and three from p on are the same. */
  ghost predicate InRun(s: seq<byte>, pre: seq<Token>, p: nat)
    requires p + 3 <= |s|
  {
    && LitRun(pre) >= 3 && p > 3
    && s[p] == s[p - 3] == s[p - 2] == s[p - 1] && s[p] == s[p + 1] == s[p + 2]
  }

  /** q, the last token start with the hash of p, will do: it has the same three bytes, and is
      far enough back, or next to p in a run. */
  ghost predicate Matchable(s: seq<byte>, pre: seq<Token>, p: nat, q: int)
    requires p + 3 <= |s| && q + 3 <= |s|
  {
    && 0 <= q && Window(s, q) == Window(s, p)
    && (p - q > MINOFFSET || (p == q + 1 && InRun(s, pre, p)))
  }

  ghost predicate Greedy1(s: seq<byte>, pre: seq<Token>, t: Token)
    requires MayMatch(s, Span(pre))
  {
    var p := Span(pre);
    var h := Hash(Window(s, p));
    var q := LastStart(s, pre, |s|, h);
    if Matchable(s, pre, p, q) then t.Ref? && t.arg == h && Longest(s, q, p, t.len)
    else t == Lit(s[p])
  }

  // ----- level 3

  /** The places before n whose window has hash h. */
  function Seen(s: seq<byte>, n: nat, h: nat): (r: seq<nat>)
    requires n + 2 <= |s|
    ensures |r| <= n && forall j :: 0 <= j < |r| ==> r[j] < n
  {
    if n == 0 then []
    else if Hash(Window(s, n - 1)) == h then Seen(s, n - 1, h) + [n - 1]
    else Seen(s, n - 1, h)
  }

  /** How many of n places are remembered: sixteen, but the places are counted in a byte, and
      when it wraps they count as forgotten. */
  function Remembered(n: nat): (k: nat)
    ensures k <= n
  {
    if n % 256 < POINTERS_3 then n % 256 else POINTERS_3
  }

  /** Of sixteen or more places sixteen are remembered exactly if the count, as a byte, is
      sixteen or more; after 256 places none is. */
  lemma RememberedExact(n: nat)
    ensures Remembered(n) == (if n < POINTERS_3 then n else POINTERS_3) <==> n < POINTERS_3 || n % 256 >= POINTERS_3
    ensures Remembered(256) == 0
  {
  }

  /** The last places with the hash of p that are still remembered. */
  function Recent(s: seq<byte>, p: nat): seq<nat>
    requires p + 3 <= |s|
  {
    var seen := Seen(s, p, Hash(Window(s, p)));
    seen[|seen| - Remembered(|seen|)..]
  }

  ghost predicate Usable(s: seq<byte>, p: nat, o: nat)
    requires p + 3 <= |s|
  {
    o in Recent(s, p) && o + MINOFFSET < p && Repeats(s, o, p, 3)
  }

  /** Of the usable places, o has the longest match, and is the nearest of those. */
  ghost predicate Best(s: seq<byte>, p: nat, o: nat, len: nat)
    requires p + 3 <= |s|
  {
    && Usable(s, p, o) && Longest(s, o, p, len)
    && forall o': nat, m: nat :: Usable(s, p, o') && m <= Limit(s, p) && Repeats(s, o', p, m) ==>
         m < len || (m == len && o' <= o)
  }

  ghost predicate Greedy3(s: seq<byte>, p: nat, t: Token)
    requires MayMatch(s, p)
  {
    match t
    case Ref(len, arg) => arg <= p && arg < MAX_OFFSET && Best(s, p, p - arg, len)
    case Lit(b) => b == s[p] && forall o: nat, len: nat :: Best(s, p, o, len) ==> p - o >= MAX_OFFSET
  }

  // ----- all tokens

  /** t is the token that comes after pre. */
  ghost predicate Greedy(level: nat, s: seq<byte>, pre: seq<Token>, t: Token) {
    var p := Span(pre);
    if !MayMatch(s, p) then p < |s| && t == Lit(s[p])
    else if level == 1 then Greedy1(s, pre, t)
    else Greedy3(s, p, t)
  }

  /** ts are the first tokens of s. */
  ghost predicate Parsed(level: nat, s: seq<byte>, ts: seq<Token>) {
    ts == [] || (
      && Parsed(level, s, ts[..|ts| - 1])
      && Greedy(level, s, ts[..|ts| - 1], ts[|ts| - 1]))
  }

  lemma ParsedSnoc(level: nat, s: seq<byte>, ts: seq<Token>, t: Token)
    requires Parsed(level, s, ts) && Greedy(level, s, ts, t)
    ensures Parsed(level, s, ts + [t])
  {
    assert (ts + [t])[..|ts|] == ts;
  }

  lemma SameToken(level: nat, s: seq<byte>, pre: seq<Token>, t: Token, t': Token)
    requires Greedy(level, s, pre, t) && Greedy(level, s, pre, t')
    ensures t == t'
  {
    hide Span, Hash, Window, Repeats, Limit, LastStart, Recent;
  }

  /** Of two parses one is the beginning of the other. */
  lemma {:induction false} OneParse(level: nat, s: seq<byte>, a: seq<Token>, b: seq<Token>)
    requires Parsed(level, s, a) && Parsed(level, s, b) && |a| <= |b|
    ensures a == b[..|a|]
    decreases |b|
  {
    hide Greedy;
    var m := |b| - 1;
    if |a| < |b| {
      OneParse(level, s, a, b[..m]);
      assert b[..m][..|a|] == b[..|a|];
    } else if a != [] {
      OneParse(level, s, a[..m], b[..m]);
      assert b[..m][..m] == b[..m];
      SameToken(level, s, a[..m], a[m], b[m]);
      assert a == a[..m] + [a[m]] && b == b[..m] + [b[m]];
    }
  }

  // ----- the frame

  /** At these tokens packing is given up: the control word is full, more than three quarters
      of the source are read, and less than one part in 32 is saved. */
  ghost predicate GivesUp(level: nat, s: seq<byte>, ts: seq<Token>) {
    && ts != [] && |ts| % GROUP == 0 && MayMatch(s, Span(ts))
    && Span(ts) > 3 * (|s| / 4)
    && HEADER_LEN + |FullGroups(level, ts)| > Span(ts) - Span(ts) / 32
  }

  ghost predicate Incompressible(level: nat, s: seq<byte>) {
    exists ts :: Parsed(level, s, ts) && GivesUp(level, s, ts)
  }

  /** The frame of s: stored if it is given up, else the packed tokens. */
  ghost predicate IsGreedy(frame: seq<byte>, level: nat, s: seq<byte>) {
    if Incompressible(level, s) then IsStored(frame, level, s)
    else exists ts :: Parsed(level, s, ts) && IsPacked(frame, level, s, ts)
  }

  /** Packing was not given up anywhere before the end of ts. */
  ghost predicate NeverUp(level: nat, s: seq<byte>, ts: seq<Token>) {
    forall n :: 0 <= n < |ts| ==> !GivesUp(level, s, ts[..n])
  }

  lemma NeverUpSnoc(level: nat, s: seq<byte>, ts: seq<Token>, t: Token)
    requires NeverUp(level, s, ts) && !GivesUp(level, s, ts)
    ensures NeverUp(level, s, ts + [t])
  {
    hide GivesUp;
    var ts' := ts + [t];
    forall n | 0 <= n < |ts'|
      ensures !GivesUp(level, s, ts'[..n])
    {
      assert ts'[..n] == if n < |ts| then ts[..n] else ts;
    }
  }

  lemma {:induction false} SpanMonotone(ts: seq<Token>, n: nat)
    requires n <= |ts|
    ensures Span(ts[..n]) <= Span(ts)
  {
    if n < |ts| {
      SpanMonotone(ts[..|ts| - 1], n);
      assert ts[..|ts| - 1][..n] == ts[..n];
    } else {
      assert ts[..n] == ts;
    }
  }

  /** Once all of the source is parsed, a place where packing is given up lies before. */
  lemma GaveUpBefore(level: nat, s: seq<byte>, ts: seq<Token>, pre: seq<Token>)
    requires Parsed(level, s, ts) && Span(ts) == |s| && Parsed(level, s, pre) && GivesUp(level, s, pre)
    ensures |pre| < |ts| && pre == ts[..|pre|]
  {
    hide Parsed, Greedy, Span, FullGroups;
    if |pre| < |ts| {
      OneParse(level, s, pre, ts);
    } else {
      OneParse(level, s, ts, pre);
      SpanMonotone(pre, |ts|);
    }
  }

  /** The packed tokens of a source that was never given up are its frame. */
  lemma PackedIsGreedy(frame: seq<byte>, level: nat, s: seq<byte>, ts: seq<Token>)
    requires Parsed(level, s, ts) && NeverUp(level, s, ts) && IsPacked(frame, level, s, ts)
    ensures IsGreedy(frame, level, s)
  {
    hide Parsed, GivesUp, Span, Layout, Describes, Header;
    if Incompressible(level, s) {
      var pre :| Parsed(level, s, pre) && GivesUp(level, s, pre);
      GaveUpBefore(level, s, ts, pre);
      assert false;
    }
  }

  lemma FullParses(level: nat, s: seq<byte>, a: seq<Token>, b: seq<Token>)
    requires Parsed(level, s, a) && Parsed(level, s, b) && Span(a) == Span(b) == |s| && |a| <= |b|
    requires Describes(level, s, b)
    ensures a == b
  {
    hide Parsed, Greedy, Span;
    OneParse(level, s, a, b);
    if |a| < |b| {
      DescribesAt(level, s, b, |a|);
      assert false;
    }
    assert b[..|b|] == b;
  }

  /** A source has one frame. */
  lemma OneFrame(frame: seq<byte>, frame': seq<byte>, level: nat, s: seq<byte>)
    requires IsGreedy(frame, level, s) && IsGreedy(frame', level, s)
    ensures frame == frame'
  {
    hide Parsed, Span, Layout, Describes, Incompressible, Header;
    if !Incompressible(level, s) {
      var a :| Parsed(level, s, a) && IsPacked(frame, level, s, a);
      var b :| Parsed(level, s, b) && IsPacked(frame', level, s, b);
      if |a| <= |b| {
        FullParses(level, s, a, b);
      } else {
        FullParses(level, s, b, a);
      }
    }
  }

  lemma GreedyIsFrame(frame: seq<byte>, level: nat, s: seq<byte>)
    requires IsGreedy(frame, level, s)
    ensures IsFrame(frame, level, s)
  {
    hide Parsed, Incompressible, IsPacked, IsStored;
  }
}
