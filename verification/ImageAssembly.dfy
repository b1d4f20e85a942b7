/** The image tool assembles the bytes of an address range from the segments of an ELF file; the
    loader copies those segments into memory.  The kernel hash is the same over both, as long as the
    file holds what the segments claim. */
module ImageAssembly {
  import opened Wrappers
  import opened Bytes

  const LOAD: nat := 1

  datatype Segment = Segment(kind: nat, offset: nat, vaddr: nat, filesz: nat)

  /** The program headers, as the tool reads them out of the file; Python reads past the end as zero
      bytes missing, so a short field is a smaller number. */
  function Field(data: seq<Byte>, o: nat, n: nat): nat { Number(PySlice(data, o, o + n)) }

  function Number(s: seq<Byte>): nat { if s == [] then 0 else s[0] + 256 * Number(s[1..]) }

  function HeaderAt(data: seq<Byte>, i: nat): Segment {
    var o := Field(data, 0x20, 8) + i * Field(data, 0x36, 2);
    Segment(Field(data, o, 4), Field(data, o + 0x08, 8), Field(data, o + 0x10, 8), Field(data, o + 0x20, 8))
  }

  function Headers(data: seq<Byte>): (segs: seq<Segment>)
    ensures |segs| == Field(data, 0x38, 2)
  {
    seq(Field(data, 0x38, 2), i requires 0 <= i < Field(data, 0x38, 2) => HeaderAt(data, i))
  }

  /** A field that lies in the file is the little-endian number there. */
  lemma FieldsRead(data: seq<Byte>, o: nat)
    ensures o + 2 <= |data| ==> Field(data, o, 2) == U16(data, o)
    ensures o + 4 <= |data| ==> Field(data, o, 4) == U32(data, o)
    ensures o + 8 <= |data| ==> Field(data, o, 8) == U64(data, o)
  {
    if o + 2 <= |data| { NumberOf(data, o, 2); NumberOf(data, o + 1, 1); NumberOf(data, o + 2, 0); }
    if o + 4 <= |data| { NumberFour(data, o, 0); NumberOf(data, o + 4, 0); }
    if o + 8 <= |data| {
      NumberFour(data, o, 4);
      NumberFour(data, o + 4, 0);
      NumberOf(data, o + 8, 0);
    }
  }

  lemma NumberOf(data: seq<Byte>, o: nat, n: nat)
    requires o + n <= |data|
    ensures Number(data[o..o + n]) == if n == 0 then 0 else data[o] + 256 * Number(data[o + 1..o + n])
  {
    if n > 0 { assert data[o..o + n][1..] == data[o + 1..o + n]; }
  }

  lemma NumberFour(data: seq<Byte>, o: nat, more: nat)
    requires o + 4 + more <= |data|
    ensures Number(data[o..o + 4 + more]) == U32(data, o) + U32_LIMIT * Number(data[o + 4..o + 4 + more])
  {
    NumberOf(data, o, 4 + more);
    NumberOf(data, o + 1, 3 + more);
    NumberOf(data, o + 2, 2 + more);
    NumberOf(data, o + 3, 1 + more);
  }

  /** A program header that lies in the file: type, offset, address and size in the file. */
  lemma HeaderFields(data: seq<Byte>, i: nat)
    requires 0x40 <= |data| && U64(data, 32) + Product(i, U16(data, 54)) + 56 <= |data|
    ensures
      var o := U64(data, 32) + Product(i, U16(data, 54));
      HeaderAt(data, i) == Segment(U32(data, o), U64(data, o + 8), U64(data, o + 16), U64(data, o + 32))
    ensures |Headers(data)| == U16(data, 56)
  {
    var o := U64(data, 32) + Product(i, U16(data, 54));
    FieldsRead(data, 32);
    FieldsRead(data, 54);
    FieldsRead(data, 56);
    FieldsRead(data, o);
    FieldsRead(data, o + 8);
    FieldsRead(data, o + 16);
    FieldsRead(data, o + 32);
  }

  // ---------------------------------------------------------------------------------------------
  // Loading
  // ---------------------------------------------------------------------------------------------

  predicate Backs(s: Segment, a: nat) { s.kind == LOAD && s.vaddr <= a < s.vaddr + s.filesz }

  /** Memory at `a` after the first `n` segments have been copied, in header order. */
  function Loaded(segs: seq<Segment>, data: seq<Byte>, n: nat, a: nat): Option<Byte>
    requires n <= |segs|
    decreases |segs|, n
  {
    if n == 0 then None
    else
      var s := segs[n - 1];
      if Backs(s, a) && s.offset + (a - s.vaddr) < |data| then Some(data[s.offset + (a - s.vaddr)])
      else Loaded(segs, data, n - 1, a)
  }

  ghost predicate Covered(segs: seq<Segment>, n: nat, a: nat)
    requires n <= |segs|
  {
    exists i: nat :: i < n && Backs(segs[i], a)
  }

  /** What the segments claim to hold at `a` is in the file. */
  ghost predicate ByteInFile(segs: seq<Segment>, data: seq<Byte>, a: nat) {
    forall i: nat | i < |segs| && Backs(segs[i], a) :: segs[i].offset + (a - segs[i].vaddr) < |data|
  }

  lemma {:induction false} LoadedWhereCovered(segs: seq<Segment>, data: seq<Byte>, n: nat, a: nat)
    requires n <= |segs| && ByteInFile(segs, data, a)
    ensures Loaded(segs, data, n, a).Some? <==> Covered(segs, n, a)
    decreases |segs|, n
  {
    if n > 0 {
      LoadedWhereCovered(segs, data, n - 1, a);
      if Backs(segs[n - 1], a) { assert segs[n - 1].offset + (a - segs[n - 1].vaddr) < |data|; }
    }
  }

  // ---------------------------------------------------------------------------------------------
  // Assembling
  // ---------------------------------------------------------------------------------------------

  function Max(a: nat, b: nat): nat { if a < b then b else a }

  function Min(a: nat, b: nat): nat { if a < b then a else b }

  /** The part of a segment inside the range. */
  function Lo(s: Segment, start: nat): nat { Max(start, s.vaddr) }

  function Hi(s: Segment, end: nat): nat { Min(end, s.vaddr + s.filesz) }

  predicate Overlaps(s: Segment, start: nat, end: nat) { s.kind == LOAD && Lo(s, start) < Hi(s, end) }

  /** The file's bytes for that part; Python cuts a slice short where the file ends. */
  function PartOf(s: Segment, data: seq<Byte>, start: nat, end: nat): seq<Byte>
    requires Overlaps(s, start, end)
  {
    var src := s.offset + (Lo(s, start) - s.vaddr);
    PySlice(data, src, src + (Hi(s, end) - Lo(s, start)))
  }

  /** Python's slice assignment: bounds are clipped, and the array takes the length of what comes. */
  function SliceSet(out: seq<Byte>, a: nat, b: nat, part: seq<Byte>): seq<Byte>
    requires a <= b
  {
    out[..Min(a, |out|)] + part + out[Min(b, |out|)..]
  }

  function Built(segs: seq<Segment>, data: seq<Byte>, n: nat, start: nat, end: nat): seq<Byte>
    requires n <= |segs| && start <= end
    decreases |segs|, n
  {
    if n == 0 then Zeros(end - start)
    else
      var s, out := segs[n - 1], Built(segs, data, n - 1, start, end);
      if Overlaps(s, start, end)
          then SliceSet(out, Lo(s, start) - start, Hi(s, end) - start, PartOf(s, data, start, end))
      else out
  }

  ghost predicate Marks(segs: seq<Segment>, n: nat, start: nat, covered: seq<bool>)
    requires n <= |segs|
  {
    forall j: nat | j < |covered| :: covered[j] <==> Covered(segs, n, start + j)
  }

  method Mark(covered: array<bool>, from: nat, to: nat)
    requires from <= to <= covered.Length
    modifies covered
    ensures forall j: nat :: j < covered.Length ==> covered[j] == (old(covered[j]) || from <= j < to)
  {
    for i := from to to
      invariant forall j: nat :: j < covered.Length ==> covered[j] == (old(covered[j]) || from <= j < i)
    {
      covered[i] := true;
    }
  }

  lemma MarksGrow(segs: seq<Segment>, n: nat, start: nat, end: nat, had: seq<bool>, covered: seq<bool>)
    requires n < |segs| && start <= end && |had| == |covered| == end - start && Marks(segs, n, start, had)
    requires forall j: nat | j < |covered| ::
               covered[j] == (had[j] || (Overlaps(segs[n], start, end)
                   && Lo(segs[n], start) <= start + j < Hi(segs[n], end)))
    ensures Marks(segs, n + 1, start, covered)
  {
    forall j: nat | j < |covered|
      ensures covered[j] <==> Covered(segs, n + 1, start + j)
    {
      assert Covered(segs, n + 1, start + j) <==> Covered(segs, n, start + j) || Backs(segs[n], start + j);
    }
  }

  method CopySegment(out: seq<Byte>, covered: array<bool>, segs: seq<Segment>, n: nat, data: seq<Byte>,
                     start: nat, end: nat) returns (next: seq<Byte>)
    requires start <= end && covered.Length == end - start && n < |segs|
    requires out == Built(segs, data, n, start, end) && Marks(segs, n, start, covered[..])
    modifies covered
    ensures next == Built(segs, data, n + 1, start, end) && Marks(segs, n + 1, start, covered[..])
  {
    var s := segs[n];
    ghost var had := covered[..];
    next := out;
    if Overlaps(s, start, end) {
      var lo, hi := Lo(s, start), Hi(s, end);
      next := SliceSet(out, lo - start, hi - start, PartOf(s, data, start, end));
      Mark(covered, lo - start, hi - start);
    }
    MarksGrow(segs, n, start, end, had, covered[..]);
  }

  method AllMarked(covered: seq<bool>) returns (all: bool)
    ensures all <==> forall k: nat | k < |covered| :: covered[k]
  {
    for j := 0 to |covered|
      invariant forall k: nat | k < j :: covered[k]
    {
      if !covered[j] { return false; }
    }
    return true;
  }

  /** `vaddr_to_bytes`, on any file and any range: it succeeds exactly if the segments claim to cover
      the range.  (Python refuses a buffer of negative length.) */
  method Assemble(data: seq<Byte>, start: nat, end: nat) returns (r: Option<seq<Byte>>)
    ensures r.Some? <==> start <= end && forall a: nat :: start <= a < end ==>
              Covered(Headers(data), |Headers(data)|, a)
    ensures r.Some? ==> r.value == Built(Headers(data), data, |Headers(data)|, start, end)
  {
    if end < start { return None; }
    var segs := Headers(data);
    var out := Zeros(end - start);
    var covered := new bool[end - start](_ => false);
    for n := 0 to |segs|
      invariant out == Built(segs, data, n, start, end) && Marks(segs, n, start, covered[..])
    {
      out := CopySegment(out, covered, segs, n, data, start, end);
    }
    var marks := covered[..];
    AllCovered(segs, start, end, marks);
    var all := AllMarked(marks);
    return if all then Some(out) else None;
  }

  lemma AllCovered(segs: seq<Segment>, start: nat, end: nat, covered: seq<bool>)
    requires start <= end && |covered| == end - start && Marks(segs, |segs|, start, covered)
    ensures (forall k: nat | k < |covered| :: covered[k]) <==> forall a: nat :: start <= a < end ==>
              Covered(segs, |segs|, a)
  {
    if forall k: nat | k < |covered| :: covered[k] {
      forall a: nat | start <= a < end
        ensures Covered(segs, |segs|, a)
      {
        var k: nat := a - start;
        assert covered[k] && start + k == a;
      }
    }
  }

  // ---------------------------------------------------------------------------------------------
  // What was assembled
  // ---------------------------------------------------------------------------------------------

  /** The parts inside the range are in the file. */
  ghost predicate PartsInFile(segs: seq<Segment>, data: seq<Byte>, n: nat, start: nat, end: nat)
    requires n <= |segs|
  {
    forall i: nat | i < n && Overlaps(segs[i], start, end)
        :: segs[i].offset + (Hi(segs[i], end) - segs[i].vaddr) <= |data|
  }

  /** Then the bytes are those the loader's copies leave in memory, wherever they leave any. */
  lemma {:induction false} BuiltIsMemory(segs: seq<Segment>, data: seq<Byte>, n: nat, start: nat, end: nat)
    requires n <= |segs| && start <= end && PartsInFile(segs, data, n, start, end)
    ensures IsMemory(Built(segs, data, n, start, end), segs, data, n, start, end)
    decreases |segs|, n
  {
    if n > 0 {
      BuiltIsMemory(segs, data, n - 1, start, end);
      var out, s := Built(segs, data, n - 1, start, end), segs[n - 1];
      if Overlaps(s, start, end) {
        WrittenIsMemory(segs, data, n, start, end, out, Built(segs, data, n, start, end));
      } else {
        forall j: nat | j < end - start && Covered(segs, n, start + j)
          ensures Loaded(segs, data, n, start + j) == Some(out[j])
        {
          assert !Backs(s, start + j);
          assert Covered(segs, n - 1, start + j);
        }
      }
    }
  }

  ghost predicate IsMemory(out: seq<Byte>, segs: seq<Segment>, data: seq<Byte>, n: nat, start: nat, end: nat)
    requires n <= |segs| && start <= end
  {
    && |out| == end - start
    && forall j: nat | j < end - start && Covered(segs, n, start + j) ::
        Loaded(segs, data, n, start + j) == Some(out[j])
  }

  /** `next` is `out` with `part` in the place of as many bytes at `a`. */
  ghost predicate Replaced(out: seq<Byte>, a: nat, part: seq<Byte>, next: seq<Byte>) {
    && |next| == |out| && a + |part| <= |out|
    && forall j: nat | j < |out| :: next[j] == if a <= j < a + |part| then part[j - a] else out[j]
  }

  /** A slice assignment of equal length inside the array. */
  lemma SliceSetAt(out: seq<Byte>, a: nat, b: nat, part: seq<Byte>)
    requires a <= b <= |out| && |part| == b - a
    ensures Replaced(out, a, part, SliceSet(out, a, b, part))
  {
  }

  ghost predicate FromFile(data: seq<Byte>, src: nat, part: seq<Byte>) {
    src + |part| <= |data| && forall k: nat | k < |part| :: part[k] == data[src + k]
  }

  lemma PartInFile(s: Segment, data: seq<Byte>, start: nat, end: nat)
    requires Overlaps(s, start, end) && s.offset + (Hi(s, end) - s.vaddr) <= |data|
    ensures |PartOf(s, data, start, end)| == Hi(s, end) - Lo(s, start)
    ensures FromFile(data, s.offset + (Lo(s, start) - s.vaddr), PartOf(s, data, start, end))
  {
  }

  /** One part written over what was there. */
  lemma WrittenIsMemory(segs: seq<Segment>, data: seq<Byte>, n: nat, start: nat, end: nat, out: seq<Byte>,
                        next: seq<Byte>)
    requires 0 < n <= |segs| && start <= end && PartsInFile(segs, data, n, start, end)
    requires Overlaps(segs[n - 1], start, end) && IsMemory(out, segs, data, n - 1, start, end)
    requires
      var s := segs[n - 1];
      next == SliceSet(out, Lo(s, start) - start, Hi(s, end) - start, PartOf(s, data, start, end))
    ensures IsMemory(next, segs, data, n, start, end)
  {
    var s := segs[n - 1];
    var a, b, part := Lo(s, start) - start, Hi(s, end) - start, PartOf(s, data, start, end);
    PartInFile(s, data, start, end);
    SliceSetAt(out, a, b, part);
    ReplacedIsMemory(segs, data, n, start, end, out, part, next);
  }

  lemma ReplacedIsMemory(segs: seq<Segment>, data: seq<Byte>, n: nat, start: nat, end: nat, out: seq<Byte>,
                         part: seq<Byte>,
                         next: seq<Byte>)
    requires 0 < n <= |segs| && start <= end && Overlaps(segs[n - 1], start, end)
    requires IsMemory(out, segs, data, n - 1, start, end)
    requires |part| == Hi(segs[n - 1], end) - Lo(segs[n - 1], start)
    requires FromFile(data, segs[n - 1].offset + (Lo(segs[n - 1], start) - segs[n - 1].vaddr), part)
    requires Replaced(out, Lo(segs[n - 1], start) - start, part, next)
    ensures IsMemory(next, segs, data, n, start, end)
  {
    var s, at: nat := segs[n - 1], Lo(segs[n - 1], start) - start;
    forall j: nat | j < end - start && Covered(segs, n, start + j)
      ensures Loaded(segs, data, n, start + j) == Some(next[j])
    {
      assert Backs(s, start + j) <==> at <= j < at + |part|;
      if at <= j < at + |part| {
        assert next[j] == part[j - at];
      } else {
        assert Covered(segs, n - 1, start + j);
      }
    }
  }

  lemma {:induction false} NotInFile(segs: seq<Segment>, data: seq<Byte>, n: nat, a: nat)
    requires n <= |segs| && forall i: nat | i < n && Backs(segs[i], a) :: segs[i].offset + (a - segs[i].vaddr) >= |data|
    ensures Loaded(segs, data, n, a).None?
    decreases |segs|, n
  {
    if n > 0 { NotInFile(segs, data, n - 1, a); }
  }

  /** No address of the range is backed by two segments. */
  ghost predicate NoneTwice(segs: seq<Segment>, start: nat, end: nat) {
    forall i: nat, j: nat, a: nat | i < j < |segs| && start <= a < end && Backs(segs[i], a) :: !Backs(segs[j], a)
  }

  /** Where segments do not overlap, the condition is exact: the result is the memory the loader's copies
      leave, of full length and defined wherever a segment claims it, exactly if the file holds every part
      inside the range. */
  lemma BuiltIsMemoryExactly(segs: seq<Segment>, data: seq<Byte>, start: nat, end: nat)
    requires start <= end && NoneTwice(segs, start, end)
    ensures IsMemory(Built(segs, data, |segs|, start, end), segs, data, |segs|, start, end) <==>
            PartsInFile(segs, data, |segs|, start, end)
  {
    if PartsInFile(segs, data, |segs|, start, end) {
      BuiltIsMemory(segs, data, |segs|, start, end);
    } else {
      var i: nat :| i < |segs| && Overlaps(segs[i], start, end)
                    && segs[i].offset + (Hi(segs[i], end) - segs[i].vaddr) > |data|;
      var a: nat := Hi(segs[i], end) - 1;
      assert start <= a < end && Backs(segs[i], a);
      assert forall k: nat | k < |segs| && Backs(segs[k], a) :: k == i;
      NotInFile(segs, data, |segs|, a);
      var j: nat := a - start;
      assert start + j == a && Covered(segs, |segs|, start + j) && Loaded(segs, data, |segs|, start + j).None?;
      var out := Built(segs, data, |segs|, start, end);
      assert |out| == end - start ==> Loaded(segs, data, |segs|, start + j) != Some(out[j]);
    }
  }

  /** A truncated part need not show in the length: here the second part, longer than what is left behind
      the first, makes up for the missing byte, and address 1 holds a zero that nothing loads. */
  lemma FullLengthButWrong() returns (segs: seq<Segment>, data: seq<Byte>)
    ensures NoneTwice(segs, 0, 4) && forall a: nat | a < 4 :: Covered(segs, |segs|, a)
    ensures !PartsInFile(segs, data, |segs|, 0, 4)
    ensures |Built(segs, data, |segs|, 0, 4)| == 4
            && !IsMemory(Built(segs, data, |segs|, 0, 4), segs, data, |segs|, 0, 4)
  {
    segs, data := [Segment(LOAD, 2, 0, 2), Segment(LOAD, 0, 2, 2)], [7, 8, 9];
    assert Backs(segs[0], 0) && Backs(segs[0], 1) && Backs(segs[1], 2) && Backs(segs[1], 3);
    assert Overlaps(segs[0], 0, 4);
    assert Built(segs, data, 1, 0, 4) == [9, 0, 0];
    assert Built(segs, data, 2, 0, 4) == [9, 0, 7, 8];
    BuiltIsMemoryExactly(segs, data, 0, 4);
  }

  /** Where segments do overlap the file may fall short without harm: what a later segment writes over
      the whole range, nobody misses. */
  lemma OverwrittenPartIsNotMissed() returns (segs: seq<Segment>, data: seq<Byte>)
    ensures !PartsInFile(segs, data, |segs|, 0, 2)
    ensures IsMemory(Built(segs, data, |segs|, 0, 2), segs, data, |segs|, 0, 2)
  {
    segs, data := [Segment(LOAD, 1, 0, 2), Segment(LOAD, 0, 0, 2)], [7, 8];
    assert Overlaps(segs[0], 0, 2);
    assert Built(segs, data, 1, 0, 2) == [8];
    assert Built(segs, data, 2, 0, 2) == [7, 8];
    forall j: nat | j < 2
      ensures Loaded(segs, data, 2, 0 + j) == Some([7, 8][j])
    {
      assert Backs(segs[1], j);
    }
  }

  /** If the truncated part is the last that reaches into the range, and the only one, the result is too
      short, while the range may count as covered. */
  lemma TruncatedPart(segs: seq<Segment>, data: seq<Byte>, n: nat, start: nat, end: nat)
    requires n < |segs| && start <= end && PartsInFile(segs, data, n, start, end)
    requires Overlaps(segs[n], start, end) && segs[n].offset + (Hi(segs[n], end) - segs[n].vaddr) > |data|
    requires forall i: nat | n < i < |segs| :: !Overlaps(segs[i], start, end)
    ensures |Built(segs, data, |segs|, start, end)| < end - start
  {
    BuiltIsMemory(segs, data, n, start, end);
    NothingFollows(segs, data, n + 1, |segs|, start, end);
  }

  lemma {:induction false} NothingFollows(segs: seq<Segment>, data: seq<Byte>, n: nat, m: nat, start: nat, end: nat)
    requires n <= m <= |segs| && start <= end && forall i: nat | n <= i < m :: !Overlaps(segs[i], start, end)
    ensures Built(segs, data, m, start, end) == Built(segs, data, n, start, end)
    decreases m
  {
    if n < m { NothingFollows(segs, data, n, m - 1, start, end); }
  }

  /** A truncated file of 98 bytes: one segment claims two bytes from offset 97.  The tool assembles one
      byte for the range of two, and reports success. */
  lemma TruncatedFile() returns (data: seq<Byte>)
    ensures |Headers(data)| == 1 && forall a: nat | a < 2 :: Covered(Headers(data), 1, a)
    ensures |Built(Headers(data), data, 1, 0, 2)| == 1
  {
    data := seq(98, i => if i == 32 then 58 else if i == 56 || i == 58 then 1 else if i == 66 then 97 else if i == 90
        then 2 else 0);
    FieldIs(data, 0x20, 8, 58);
    FieldIs(data, 0x38, 2, 1);
    FieldIs(data, 58, 4, 1);
    FieldIs(data, 66, 8, 97);
    FieldIs(data, 74, 8, 0);
    FieldIs(data, 90, 8, 2);
    OneSegment(data);
  }

  lemma OneSegment(data: seq<Byte>)
    requires |data| == 98 && Headers(data) == [Segment(1, 97, 0, 2)]
    ensures forall a: nat | a < 2 :: Covered(Headers(data), 1, a)
    ensures |Built(Headers(data), data, 1, 0, 2)| == 1
  {
    var segs := Headers(data);
    assert Backs(segs[0], 0) && Backs(segs[0], 1);
    assert |PartOf(segs[0], data, 0, 2)| == 1;
  }

  /** A field whose bytes above the lowest are zero. */
  lemma FieldIs(data: seq<Byte>, o: nat, n: nat, v: nat)
    requires n > 0 && o + n <= |data| && data[o] == v && forall k: nat | o < k < o + n :: data[k] == 0
    ensures Field(data, o, n) == v
  {
    assert data[o..o + n][0] == v;
    NumberOfZeros(data[o..o + n][1..]);
  }

  lemma {:induction false} NumberOfZeros(s: seq<Byte>)
    requires forall k: nat | k < |s| :: s[k] == 0
    ensures Number(s) == 0
  {
    if s != [] { NumberOfZeros(s[1..]); }
  }
}
