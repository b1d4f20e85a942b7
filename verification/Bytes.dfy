/**
  Bytes, little-endian fields, and the two ways the tools write them into a buffer.

  A field is read where it lies and encoded on its own; `HoldsAt` says that a run of bytes stands at
  a place, and the lemmas about it say when that survives a change elsewhere or a copy.  `Put` is the
  slice assignment of equal length, `PutNext` writes behind everything written so far, and `PySlice`
  is Python's slicing with its negative bounds and its clipping.
 */
module Bytes {
  import opened Wrappers

  type Byte = b: nat | b < 256

  const SECTOR: nat := 512

  function U16(d: seq<Byte>, o: nat): (v: nat)
    requires o + 2 <= |d|
    ensures v < U16_LIMIT
  {
    var lo: nat, hi: nat := d[o], d[o + 1];
    lo + 256 * hi
  }

  function U32(d: seq<Byte>, o: nat): (v: nat)
    requires o + 4 <= |d|
    ensures v < U32_LIMIT
  {
    U16(d, o) + 65536 * U16(d, o + 2)
  }

  function U64(d: seq<Byte>, o: nat): (v: nat)
    requires o + 8 <= |d|
    ensures v < U64_LIMIT
  {
    U32(d, o) + U32_LIMIT * U32(d, o + 4)
  }

  lemma CutU16(d: seq<Byte>, from: nat, to: nat, o: nat)
    requires from <= to <= |d| && o + 2 <= to - from
    ensures U16(d[from..to], o) == U16(d, from + o)
  {
    var e := d[from..to];
    assert e[o] == d[from + o] && e[o + 1] == d[from + (o + 1)];
  }

  lemma CutCut(d: seq<Byte>, from: nat, to: nat, a: nat, b: nat)
    requires from <= to <= |d| && a <= b <= to - from
    ensures d[from..to][a..b] == d[from + a..from + b]
  {
    var e, w := d[from..to], d[from + a..from + b];
    forall j: nat | j < b - a
      ensures e[a..b][j] == w[j]
    {
      assert e[a + j] == d[from + (a + j)];
    }
  }

  /** A product of two unknowns, kept apart from the linear facts around it. */
  function Product(a: nat, b: nat): nat { a * b }

  /** A field read in a slice is the field of the whole. */
  lemma CutU64(d: seq<Byte>, from: nat, to: nat, o: nat)
    requires from <= to <= |d| && o + 8 <= to - from
    ensures U64(d[from..to], o) == U64(d, from + o)
  {
    CutU32(d, from, to, o);
    CutU32(d, from, to, o + 4);
  }

  lemma CutU32(d: seq<Byte>, from: nat, to: nat, o: nat)
    requires from <= to <= |d| && o + 4 <= to - from
    ensures U32(d[from..to], o) == U32(d, from + o)
  {
    CutU16(d, from, to, o);
    CutU16(d, from, to, o + 2);
  }

  function Le16(v: nat): (s: seq<Byte>)
    requires v < U16_LIMIT
    ensures |s| == 2
  {
    [v % 256, v / 256]
  }

  function Le32(v: nat): (s: seq<Byte>)
    requires v < U32_LIMIT
    ensures |s| == 4
  {
    Le16(v % 65536) + Le16(v / 65536)
  }

  function Le64(v: nat): (s: seq<Byte>)
    requires v < U64_LIMIT
    ensures |s| == 8
  {
    Le32(v % U32_LIMIT) + Le32(v / U32_LIMIT)
  }

  function Zeros(n: nat): (z: seq<Byte>)
    ensures |z| == n && forall i: nat | i < n :: z[i] == 0
  {
    seq(n, _ => 0)
  }

  /** `d` with `s` written at `o`. */
  function Splice(d: seq<Byte>, o: nat, s: seq<Byte>): (r: seq<Byte>)
    requires o + |s| <= |d|
    ensures |r| == |d|
  {
    d[..o] + s + d[o + |s|..]
  }

  lemma SpliceFacts(d: seq<Byte>, o: nat, s: seq<Byte>)
    requires o + |s| <= |d|
    ensures Splice(d, o, s)[o..o + |s|] == s
    ensures forall i: nat | i < |d| && !(o <= i < o + |s|) :: Splice(d, o, s)[i] == d[i]
  {
  }

  /** `s` lies at `o` in `d`. */
  ghost predicate HoldsAt(d: seq<Byte>, o: nat, s: seq<Byte>) {
    o + |s| <= |d| && d[o..o + |s|] == s
  }

  lemma HoldsElsewhere(d: seq<Byte>, e: seq<Byte>, o: nat, s: seq<Byte>)
    requires |d| == |e| && HoldsAt(d, o, s)
    requires forall pos: nat | o <= pos < o + |s| :: e[pos] == d[pos]
    ensures HoldsAt(e, o, s)
  {
    assert e[o..o + |s|] == d[o..o + |s|];
  }

  lemma HoldsCopied(img: seq<Byte>, d: seq<Byte>, base: nat, o: nat, s: seq<Byte>)
    requires base + |img| <= |d| && d[base..base + |img|] == img && HoldsAt(img, 0 + o, s)
    ensures HoldsAt(d, base + o, s)
  {
    var w := d[base..base + |img|];
    forall x: nat | x < |s|
      ensures d[base + o..base + o + |s|][x] == s[x]
    {
      assert w[o + x] == d[base + (o + x)];
      assert img[o..o + |s|][x] == s[x];
    }
    assert d[base + o..base + o + |s|] == s;
  }

  lemma HoldsJoined(e: seq<Byte>, o: nat, s: seq<Byte>, t: seq<Byte>)
    requires HoldsAt(e, o, s) && HoldsAt(e, o + |s|, t)
    ensures HoldsAt(e, o, s + t)
  {
    assert e[o..o + |s| + |t|] == e[o..o + |s|] + e[o + |s|..o + |s| + |t|];
  }

  lemma Le16Read(d: seq<Byte>, o: nat, v: nat)
    requires v < U16_LIMIT && o + 2 <= |d| && d[o..o + 2] == Le16(v)
    ensures U16(d, o) == v
  {
    assert d[o] == d[o..o + 2][0] && d[o + 1] == d[o..o + 2][1];
  }

  lemma Le32Read(d: seq<Byte>, o: nat, v: nat)
    requires v < U32_LIMIT && o + 4 <= |d| && d[o..o + 4] == Le32(v)
    ensures U32(d, o) == v
  {
    assert d[o..o + 2] == d[o..o + 4][..2];
    assert d[o + 2..o + 4] == d[o..o + 4][2..];
    Le16Read(d, o, v % 65536);
    Le16Read(d, o + 2, v / 65536);
  }

  lemma Le64Read(d: seq<Byte>, o: nat, v: nat)
    requires v < U64_LIMIT && o + 8 <= |d| && d[o..o + 8] == Le64(v)
    ensures U64(d, o) == v
  {
    assert d[o..o + 4] == d[o..o + 8][..4];
    assert d[o + 4..o + 8] == d[o..o + 8][4..];
    Le32Read(d, o, v % U32_LIMIT);
    Le32Read(d, o + 4, v / U32_LIMIT);
  }

  /** Four bytes that read as `v` are its encoding. */
  lemma Le32Unique(s: seq<Byte>, o: nat, v: nat)
    requires o + 4 <= |s| && U32(s, o) == v
    ensures s[o..o + 4] == Le32(v)
  {
    var t := s[o..o + 4];
    assert v % 65536 == U16(s, o) && v / 65536 == U16(s, o + 2);
    assert t == t[0..2] + t[2..4];
  }

  /** Slice assignment of equal length into a buffer. */
  method Put(a: array<Byte>, o: nat, s: seq<Byte>)
    requires o + |s| <= a.Length
    modifies a
    ensures a[..] == Splice(old(a[..]), o, s)
  {
    for i := 0 to |s|
      invariant forall j: nat | j < a.Length :: a[j] == if o <= j < o + i then s[j - o] else old(a[j])
    {
      a[o + i] := s[i];
    }
    assert a[..] == Splice(old(a[..]), o, s);
  }

  /** Write behind everything written so far; what lies between stays zero. */
  method PutNext(img: array<Byte>, ghost done: seq<Byte>, o: nat, s: seq<Byte>) returns (ghost now: seq<Byte>)
    requires |done| <= o && o + |s| <= img.Length && img[..] == done + Zeros(img.Length - |done|)
    modifies img
    ensures now == done + Zeros(o - |done|) + s && |now| == o + |s|
    ensures img[..] == now + Zeros(img.Length - |now|)
  {
    ghost var before := img[..];
    Put(img, o, s);
    SpliceFacts(before, o, s);
    now := done + Zeros(o - |done|) + s;
    assert before[..o] == done + Zeros(o - |done|);
    assert img[..o] == before[..o];
    assert img[..] == img[..o] + img[o..o + |s|] + img[o + |s|..];
    assert img[o + |s|..] == before[o + |s|..] == Zeros(img.Length - |now|);
  }

  /** Python slicing: negative bounds count from the end, both bounds are clipped. */
  function PySlice(d: seq<Byte>, from: int, to: int): (r: seq<Byte>)
    ensures 0 <= from <= to <= |d| ==> r == d[from..to]
    ensures from >= |d| ==> r == []
  {
    var lo := if from < 0 then (if from + |d| < 0 then 0 else from + |d|) else if from > |d| then |d| else from;
    var hi := if to < 0 then (if to + |d| < 0 then 0 else to + |d|) else if to > |d| then |d| else to;
    if lo < hi then d[lo..hi] else []
  }
}
