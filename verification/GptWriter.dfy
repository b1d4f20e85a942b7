/**
  The disk-image tool: protective MBR, two GPT copies, an optional FAT16 volume.

  A header is filled in four groups of fields that do not disturb one another, and then sealed with a
  checksum over itself.  The table is two such headers, each naming the other, over one list of
  entries; volume and mark are written into the usable area afterwards, and the lemmas at the end say
  that this harms neither table nor volume.
 */
module GptWriter {
  import opened Wrappers
  import opened Bytes
  import opened GptTables
  import FatSizing
  import FatImage
  import FatWriter

  /** What the tool can be asked to spoil, for tests of the readers. */
  datatype Damage = Sound | SpoiltSignature | SpoiltHeaderCrc | SpoiltEntriesCrc

  datatype Part = Part(first: nat, last: nat)

  function TypeGuid(): (s: seq<Byte>)
    ensures |s| == 16
  {
    [0xaf, 0x3d, 0xc6, 0x0f, 0x83, 0x84, 0x72, 0x0e, 0x3d, 0x69, 0xd8, 0x47, 0x7d, 0xe4, 0x00, 0x02]
  }

  function Same(b: Byte, n: nat): (s: seq<Byte>)
    ensures |s| == n && forall i: nat | i < n :: s[i] == b
  {
    seq(n, _ => b)
  }

  function SpoiltSig(): (s: seq<Byte>)
    ensures |s| == 8
  {
    [0x58, 0x46, 0x49, 0x20, 0x50, 0x41, 0x52, 0x54]
  }

  function SigFor(damage: Damage): (s: seq<Byte>)
    ensures |s| == 8
  {
    if damage == SpoiltSignature then SpoiltSig() else Signature()
  }

  function Flipped(c: nat): (r: nat)
    requires c < U32_LIMIT
    ensures r < U32_LIMIT && r != c && r + c == 0xFFFF_FFFF
  {
    U32_LIMIT - 1 - c
  }

  // ---------------------------------------------------------------------------------------------
  // Header
  // ---------------------------------------------------------------------------------------------

  datatype Place = Place(my: nat, alt: nat, first: nat, last: nat, entryLba: nat)

  predicate PlaceOk(p: Place) {
    p.my < U64_LIMIT && p.alt < U64_LIMIT && p.first < U64_LIMIT && p.last < U64_LIMIT && p.entryLba < U64_LIMIT
  }

  /** What a header sector for this place says; the checksum is the right one unless spoilt. */
  ghost predicate HeaderFor(crc: Crc, damage: Damage, p: Place, entriesCrc: nat, s: seq<Byte>) {
    && |s| == 512 && s[..8] == SigFor(damage) && U32(s, 8) == REVISION
    && Fields(s) == Header(HEADER_SIZE, p.my, p.alt, p.first, p.last, p.entryLba, NUM_ENTRIES, ENTRY_SIZE, entriesCrc)
    && U32(s, 16) == SumFor(crc, damage, s)
    && s[20..24] == Zeros(4) && s[56..72] == Same(0x11, 16) && s[92..] == Zeros(420)
  }

  function SumFor(crc: Crc, damage: Damage, s: seq<Byte>): (c: nat)
    requires |s| == 512
    ensures c < U32_LIMIT
  {
    var c := crc(Covered(s, HEADER_SIZE));
    if damage == SpoiltHeaderCrc then Flipped(c) else c
  }

  ghost predicate OnlyChanged(d: seq<Byte>, e: seq<Byte>, from: nat, to: nat) {
    |d| == |e| && forall i: nat | i < |d| && !(from <= i < to) :: e[i] == d[i]
  }

  method PutU32(a: array<Byte>, o: nat, v: nat)
    requires o + 4 <= a.Length && v < U32_LIMIT
    modifies a
    ensures U32(a[..], o) == v && OnlyChanged(old(a[..]), a[..], o, o + 4)
  {
    ghost var d := a[..];
    Put(a, o, Le32(v));
    SpliceFacts(d, o, Le32(v));
    Le32Read(a[..], o, v);
  }

  method PutU64(a: array<Byte>, o: nat, v: nat)
    requires o + 8 <= a.Length && v < U64_LIMIT
    modifies a
    ensures U64(a[..], o) == v && OnlyChanged(old(a[..]), a[..], o, o + 8)
  {
    ghost var d := a[..];
    Put(a, o, Le64(v));
    SpliceFacts(d, o, Le64(v));
    Le64Read(a[..], o, v);
  }

  lemma Kept32(d: seq<Byte>, e: seq<Byte>, from: nat, to: nat, o: nat)
    requires OnlyChanged(d, e, from, to) && o + 4 <= |d| && (o + 4 <= from || to <= o)
    ensures U32(e, o) == U32(d, o)
  {
    SameU32(d, e, o);
  }

  lemma Kept64(d: seq<Byte>, e: seq<Byte>, from: nat, to: nat, o: nat)
    requires OnlyChanged(d, e, from, to) && o + 8 <= |d| && (o + 8 <= from || to <= o)
    ensures U64(e, o) == U64(d, o)
  {
    SameU64(d, e, o);
  }

  /** Signature, revision, size: bytes 0..16. */
  method FillFront(h: array<Byte>, sig: seq<Byte>)
    requires h.Length == 92 && |sig| == 8
    modifies h
    ensures h[..][..8] == sig && U32(h[..], 8) == REVISION && U32(h[..], 12) == HEADER_SIZE
    ensures OnlyChanged(old(h[..]), h[..], 0, 16)
  {
    ghost var d := h[..];
    Put(h, 0, sig);
    SpliceFacts(d, 0, sig);
    ghost var d1 := h[..];
    assert d1[..8] == sig;
    PutU32(h, 8, REVISION);
    ghost var d2 := h[..];
    PutU32(h, 12, HEADER_SIZE);
    Kept32(d2, h[..], 12, 16, 8);
    assert h[..][..8] == d1[..8];
  }

  /** Where the copy lies and what it covers: bytes 24..56. */
  method FillPlace(h: array<Byte>, p: Place)
    requires h.Length == 92 && PlaceOk(p)
    modifies h
    ensures U64(h[..], 24) == p.my && U64(h[..], 32) == p.alt && U64(h[..], 40) == p.first && U64(h[..], 48) == p.last
    ensures OnlyChanged(old(h[..]), h[..], 24, 56)
  {
    PutU64(h, 24, p.my);
    ghost var d1 := h[..];
    PutU64(h, 32, p.alt);
    ghost var d2 := h[..];
    Kept64(d1, d2, 32, 40, 24);
    PutU64(h, 40, p.first);
    ghost var d3 := h[..];
    Kept64(d2, d3, 40, 48, 24); Kept64(d2, d3, 40, 48, 32);
    PutU64(h, 48, p.last);
    Kept64(d3, h[..], 48, 56, 24); Kept64(d3, h[..], 48, 56, 32); Kept64(d3, h[..], 48, 56, 40);
  }

  /** Where the entries lie, how many, how large, their checksum: bytes 72..92. */
  method FillList(h: array<Byte>, entryLba: nat, entriesCrc: nat)
    requires h.Length == 92 && entryLba < U64_LIMIT && entriesCrc < U32_LIMIT
    modifies h
    ensures U64(h[..], 72) == entryLba && U32(h[..], 80) == NUM_ENTRIES && U32(h[..], 84) == ENTRY_SIZE
    ensures U32(h[..], 88) == entriesCrc && OnlyChanged(old(h[..]), h[..], 72, 92)
  {
    PutU64(h, 72, entryLba);
    ghost var d1 := h[..];
    PutU32(h, 80, NUM_ENTRIES);
    ghost var d2 := h[..];
    Kept64(d1, d2, 80, 84, 72);
    PutU32(h, 84, ENTRY_SIZE);
    ghost var d3 := h[..];
    Kept64(d2, d3, 84, 88, 72); Kept32(d2, d3, 84, 88, 80);
    PutU32(h, 88, entriesCrc);
    Kept64(d3, h[..], 88, 92, 72); Kept32(d3, h[..], 88, 92, 80); Kept32(d3, h[..], 88, 92, 84);
  }

  /** The four groups do not disturb one another. */
  lemma GroupsMeet(d0: seq<Byte>, d1: seq<Byte>, d2: seq<Byte>, d3: seq<Byte>, d4: seq<Byte>, d5: seq<Byte>)
    requires |d0| == 92 && OnlyChanged(d0, d1, 0, 16) && OnlyChanged(d1, d2, 24, 56) && OnlyChanged(d2, d3, 56, 72)
    requires OnlyChanged(d3, d4, 72, 92) && OnlyChanged(d4, d5, 16, 20)
    ensures SameBytes(d1, d5, 0, 16) && SameBytes(d2, d5, 24, 56) && SameBytes(d4, d5, 20, 92)
    ensures forall i: nat | i < 92 && i != 16 && i != 17 && i != 18 && i != 19 :: d5[i] == d4[i]
    ensures SameBytes(d0, d4, 16, 20)
  {
  }

  lemma Padded(h: seq<Byte>, s: seq<Byte>)
    requires |h| == 92 && |s| == 512 && s[..92] == h
    ensures s[..8] == h[..8] && U32(s, 8) == U32(h, 8) && U32(s, 16) == U32(h, 16)
    ensures Fields(s) == Header(U32(h, 12), U64(h, 24), U64(h, 32), U64(h, 40), U64(h, 48), U64(h, 72),
                                U32(h, 80), U32(h, 84), U32(h, 88))
    ensures Covered(s, 92) == h[..16] + Zeros(4) + h[20..]
  {
    assert forall i: nat | i < 92 :: s[i] == h[i];
    Pad32(h, s, 8); Pad32(h, s, 12); Pad32(h, s, 16); Pad32(h, s, 80); Pad32(h, s, 84); Pad32(h, s, 88);
    Pad64(h, s, 24); Pad64(h, s, 32); Pad64(h, s, 40); Pad64(h, s, 48); Pad64(h, s, 72);
    assert s[..16] == h[..16] && PySlice(s, 20, 92) == s[20..92] == h[20..];
  }

  lemma Pad32(h: seq<Byte>, s: seq<Byte>, o: nat)
    requires o + 4 <= |h| <= |s| && forall i: nat | i < |h| :: s[i] == h[i]
    ensures U32(s, o) == U32(h, o)
  {
  }

  lemma Pad64(h: seq<Byte>, s: seq<Byte>, o: nat)
    requires o + 8 <= |h| <= |s| && forall i: nat | i < |h| :: s[i] == h[i]
    ensures U64(s, o) == U64(h, o)
  {
    Pad32(h, s, o);
    Pad32(h, s, o + 4);
  }

  method FillHeader(h: array<Byte>, sig: seq<Byte>, p: Place, entriesCrc: nat)
    requires h.Length == 92 && h[..] == Zeros(92) && |sig| == 8 && PlaceOk(p) && entriesCrc < U32_LIMIT
    modifies h
    ensures Filled(h[..], sig, p, entriesCrc) && h[..][16..20] == Zeros(4)
  {
    ghost var d0 := h[..];
    FillFront(h, sig);
    ghost var d1 := h[..];
    FillPlace(h, p);
    ghost var d2 := h[..];
    Put(h, 56, Same(0x11, 16));
    SpliceFacts(d2, 56, Same(0x11, 16));
    ghost var d3 := h[..];
    FillList(h, p.entryLba, entriesCrc);
    FilledUp(d0, d1, d2, d3, h[..], sig, p, entriesCrc);
  }

  /** All fields but the checksum. */
  ghost predicate Filled(h: seq<Byte>, sig: seq<Byte>, p: Place, entriesCrc: nat) {
    && |h| == 92 && h[..8] == sig && U32(h, 8) == REVISION && U32(h, 12) == HEADER_SIZE
    && U64(h, 24) == p.my && U64(h, 32) == p.alt && U64(h, 40) == p.first && U64(h, 48) == p.last
    && U64(h, 72) == p.entryLba && U32(h, 80) == NUM_ENTRIES && U32(h, 84) == ENTRY_SIZE && U32(h, 88) == entriesCrc
    && h[20..24] == Zeros(4) && h[56..72] == Same(0x11, 16)
  }

  lemma FilledUp(d0: seq<Byte>, d1: seq<Byte>, d2: seq<Byte>, d3: seq<Byte>, h: seq<Byte>, sig: seq<Byte>, p: Place,
                 entriesCrc: nat)
    requires d0 == Zeros(92) && |sig| == 8
    requires OnlyChanged(d0, d1, 0, 16) && OnlyChanged(d1, d2, 24, 56) && OnlyChanged(d2, d3, 56, 72)
    requires OnlyChanged(d3, h, 72, 92)
    requires d1[..8] == sig && U32(d1, 8) == REVISION && U32(d1, 12) == HEADER_SIZE
    requires U64(d2, 24) == p.my && U64(d2, 32) == p.alt && U64(d2, 40) == p.first && U64(d2, 48) == p.last
    requires U64(h, 72) == p.entryLba && U32(h, 80) == NUM_ENTRIES && U32(h, 84) == ENTRY_SIZE
             && U32(h, 88) == entriesCrc && d3[56..72] == Same(0x11, 16)
    ensures Filled(h, sig, p, entriesCrc) && h[16..20] == Zeros(4)
  {
    GroupsMeet(d0, d1, d2, d3, h, h);
    SameU32(d1, h, 8); SameU32(d1, h, 12);
    SameU64(d2, h, 24); SameU64(d2, h, 32); SameU64(d2, h, 40); SameU64(d2, h, 48);
    assert h[..8] == d1[..8] && h[20..24] == Zeros(4) && h[56..72] == d3[56..72];
  }

  lemma SumKept(h: seq<Byte>, e: seq<Byte>, sig: seq<Byte>, p: Place, entriesCrc: nat)
    requires Filled(h, sig, p, entriesCrc) && OnlyChanged(h, e, 16, 20)
    ensures Filled(e, sig, p, entriesCrc)
  {
    Kept32(h, e, 16, 20, 8); Kept32(h, e, 16, 20, 12); Kept32(h, e, 16, 20, 80); Kept32(h, e, 16, 20, 84);
    Kept32(h, e, 16, 20, 88); Kept64(h, e, 16, 20, 24); Kept64(h, e, 16, 20, 32); Kept64(h, e, 16, 20, 40);
    Kept64(h, e, 16, 20, 48); Kept64(h, e, 16, 20, 72);
    assert e[..8] == h[..8] && e[20..24] == h[20..24] && e[56..72] == h[56..72];
  }

  lemma HeaderDone(crc: Crc, damage: Damage, p: Place, entriesCrc: nat, h: seq<Byte>, s: seq<Byte>)
    requires Filled(h, SigFor(damage), p, entriesCrc) && |s| == 512 && s[..92] == h && s[92..] == Zeros(420)
    requires
      var c: nat := crc(h[..16] + Zeros(4) + h[20..]);
      U32(h, 16) == if damage == SpoiltHeaderCrc then Flipped(c) else c
    ensures HeaderFor(crc, damage, p, entriesCrc, s)
  {
    Padded(h, s);
    assert s[20..24] == s[..92][20..24] && s[56..72] == s[..92][56..72];
  }

  /** `build_header`: the checksum is computed over the header with a zero in its place. */
  method BuildHeader(crc: Crc, damage: Damage, p: Place, entriesCrc: nat) returns (s: seq<Byte>)
    requires PlaceOk(p) && entriesCrc < U32_LIMIT
    ensures HeaderFor(crc, damage, p, entriesCrc, s)
  {
    var h := new Byte[HEADER_SIZE](_ => 0);
    assert h[..] == Zeros(92);
    FillHeader(h, SigFor(damage), p, entriesCrc);
    ghost var before := h[..];
    var sum: nat := crc(h[..]);
    if damage == SpoiltHeaderCrc { sum := Flipped(sum); }
    PutU32(h, 16, sum);
    SumKept(before, h[..], SigFor(damage), p, entriesCrc);
    assert before == h[..][..16] + Zeros(4) + h[..][20..];
    s := h[..] + Zeros(SECTOR - HEADER_SIZE);
    HeaderDone(crc, damage, p, entriesCrc, h[..], s);
  }

  // ---------------------------------------------------------------------------------------------
  // Entries
  // ---------------------------------------------------------------------------------------------

  function Digits(i: nat): (s: seq<Byte>)
    requires i < 128
    ensures 1 <= |s| <= 3
  {
    if i < 10 then [48 + i] else if i < 100 then [48 + i / 10, 48 + i % 10] else [49, 48 + (i - 100) / 10, 48 + i % 10]
  }

  /** Two bytes a character. */
  function Utf16(ascii: seq<Byte>): (s: seq<Byte>)
    ensures |s| == 2 * |ascii|
  {
    if ascii == [] then [] else [ascii[0], 0] + Utf16(ascii[1..])
  }

  /** The partition's name, `caprock` and its index. */
  function NameOf(i: nat): (s: seq<Byte>)
    requires i < 128
    ensures |s| <= 20
  {
    Utf16([0x63, 0x61, 0x70, 0x72, 0x6f, 0x63, 0x6b] + Digits(i))
  }

  /** The number three digits say. */
  function Decimal(s: seq<Byte>): int {
    if s == [] then 0
    else
      var last: int := s[|s| - 1];
      10 * Decimal(s[..|s| - 1]) + last - 48
  }

  /** The name is `caprock` and the index without leading zeros, two bytes a character. */
  lemma NameMeans(i: nat)
    requires i < 128
    ensures Decimal(Digits(i)) == i && (|Digits(i)| > 1 ==> Digits(i)[0] != 48)
    ensures forall k: nat | k < |Digits(i)| :: 48 <= Digits(i)[k] <= 57
    ensures
      var ascii := [0x63, 0x61, 0x70, 0x72, 0x6f, 0x63, 0x6b] + Digits(i);
      && |NameOf(i)| == 2 * |ascii|
      && forall k: nat | k < |ascii| :: NameOf(i)[2 * k] == ascii[k] && NameOf(i)[2 * k + 1] == 0
  {
    var s := Digits(i);
    assert Decimal([]) == 0;
    assert Decimal([s[0]]) == s[0] - 48 by { assert [s[0]][..0] == []; }
    if |s| >= 2 { assert [s[0], s[1]][..1] == [s[0]]; }
    if |s| == 3 { assert s[..2] == [s[0], s[1]]; }
    var ascii := [0x63, 0x61, 0x70, 0x72, 0x6f, 0x63, 0x6b] + s;
    forall k: nat | k < |ascii|
      ensures NameOf(i)[2 * k] == ascii[k] && NameOf(i)[2 * k + 1] == 0
    {
      Utf16At(ascii, k);
    }
  }

  lemma {:induction false} Utf16At(ascii: seq<Byte>, k: nat)
    requires k < |ascii|
    ensures Utf16(ascii)[2 * k] == ascii[k] && Utf16(ascii)[2 * k + 1] == 0
    decreases k
  {
    if k > 0 {
      Utf16At(ascii[1..], k - 1);
      assert Utf16(ascii) == [ascii[0], 0] + Utf16(ascii[1..]);
    }
  }

  ghost predicate EntryFor(e: seq<Byte>, i: nat, p: Part) {
    && |e| == 128 && i < 128
    && TypeOf(e) == TypeGuid() && GuidOf(e) == Same(i + 1, 16)
    && FirstOf(e) == p.first && LastOf(e) == p.last
    && HoldsAt(e, 56, NameOf(i))
    && forall j: nat | 48 <= j < 56 || 56 + |NameOf(i)| <= j < 128 :: e[j] == 0
  }

  ghost predicate EntryUnused(e: seq<Byte>) {
    forall j: nat | j < |e| :: e[j] == 0
  }

  ghost predicate EntriesFor(parts: seq<Part>, list: seq<Byte>) {
    && |parts| <= NUM_ENTRIES && |list| == ENTRY_BYTES
    && (forall i: nat | i < |parts| :: EntryFor(EntryOf(list, i), i, parts[i]))
    && (forall i: nat | |parts| <= i < NUM_ENTRIES :: EntryUnused(EntryOf(list, i)))
  }

  method PutRun(a: array<Byte>, o: nat, s: seq<Byte>)
    requires o + |s| <= a.Length
    modifies a
    ensures a[..][o..o + |s|] == s && OnlyChanged(old(a[..]), a[..], o, o + |s|)
  {
    ghost var d := a[..];
    Put(a, o, s);
    SpliceFacts(d, o, s);
  }

  method PutEntry(a: array<Byte>, i: nat, p: Part)
    requires a.Length == ENTRY_BYTES && i < NUM_ENTRIES && p.first < U64_LIMIT && p.last < U64_LIMIT
    requires forall j: nat | 128 * i <= j < 128 * i + 128 :: a[j] == 0
    modifies a
    ensures EntryFor(EntryOf(a[..], i), i, p) && OnlyChanged(old(a[..]), a[..], 128 * i, 128 * i + 128)
  {
    var o := i * ENTRY_SIZE;
    ghost var d0 := a[..];
    PutRun(a, o, TypeGuid());
    ghost var d1 := a[..];
    PutRun(a, o + 16, Same(i + 1, 16));
    ghost var d2 := a[..];
    PutU64(a, o + 32, p.first);
    ghost var d3 := a[..];
    PutU64(a, o + 40, p.last);
    ghost var d4 := a[..];
    var name := NameOf(i);
    PutRun(a, o + 56, name);
    EntryPut(d0, d1, d2, d3, d4, a[..], o, TypeGuid(), Same(i + 1, 16), p.first, p.last, name);
  }

  /** Five writes into the 128 bytes at `o`, read back. */
  lemma EntryPut(d0: seq<Byte>, d1: seq<Byte>, d2: seq<Byte>, d3: seq<Byte>, d4: seq<Byte>, d5: seq<Byte>, o: nat,
                 kind: seq<Byte>, guid: seq<Byte>, first: nat, last: nat, name: seq<Byte>)
    requires o + 128 <= |d0| && |kind| == |guid| == 16 && |name| <= 20
    requires forall j: nat | o <= j < o + 128 :: d0[j] == 0
    requires OnlyChanged(d0, d1, o, o + 16) && d1[o..o + 16] == kind
    requires OnlyChanged(d1, d2, o + 16, o + 32) && d2[o + 16..o + 32] == guid
    requires OnlyChanged(d2, d3, o + 32, o + 40) && U64(d3, o + 32) == first
    requires OnlyChanged(d3, d4, o + 40, o + 48) && U64(d4, o + 40) == last
    requires OnlyChanged(d4, d5, o + 56, o + 56 + |name|) && d5[o + 56..o + 56 + |name|] == name
    ensures OnlyChanged(d0, d5, o, o + 128)
    ensures
      var e := d5[o..o + 128];
      && e[0..16] == kind && e[16..32] == guid && U64(e, 32) == first && U64(e, 40) == last && HoldsAt(e, 56, name)
      && forall j: nat | 48 <= j < 56 || 56 + |name| <= j < 128 :: e[j] == 0
  {
    var e := d5[o..o + 128];
    assert e[0..16] == kind by {
      CutCut(d5, o, o + 128, 0, 16);
      assert d5[o..o + 16] == d1[o..o + 16];
    }
    assert e[16..32] == guid by {
      CutCut(d5, o, o + 128, 16, 32);
      assert d5[o + 16..o + 32] == d2[o + 16..o + 32];
    }
    assert U64(e, 32) == first by {
      Kept64(d3, d4, o + 40, o + 48, o + 32);
      Kept64(d4, d5, o + 56, o + 56 + |name|, o + 32);
      CutU64(d5, o, o + 128, 32);
    }
    assert U64(e, 40) == last by {
      Kept64(d4, d5, o + 56, o + 56 + |name|, o + 40);
      CutU64(d5, o, o + 128, 40);
    }
    assert HoldsAt(e, 56, name) by { CutCut(d5, o, o + 128, 56, 56 + |name|); }
    forall j: nat | 48 <= j < 56 || 56 + |name| <= j < 128
      ensures e[j] == 0
    {
      assert e[j] == d5[o + j] == d0[o + j];
    }
  }

  lemma EntriesKept(d: seq<Byte>, e: seq<Byte>, i: nat, j: nat)
    requires |d| == ENTRY_BYTES && OnlyChanged(d, e, 128 * i, 128 * i + 128) && i != j && j < NUM_ENTRIES
    ensures EntryOf(e, j) == EntryOf(d, j)
  {
  }

  method BuildEntries(parts: seq<Part>) returns (list: seq<Byte>)
    requires |parts| <= NUM_ENTRIES
    requires forall i: nat | i < |parts| :: parts[i].first < U64_LIMIT && parts[i].last < U64_LIMIT
    ensures EntriesFor(parts, list)
  {
    var a := new Byte[ENTRY_BYTES](_ => 0);
    for i := 0 to |parts|
      invariant forall k: nat | k < i :: EntryFor(EntryOf(a[..], k), k, parts[k])
      invariant forall j: nat | 128 * i <= j < ENTRY_BYTES :: a[j] == 0
    {
      ghost var d := a[..];
      PutEntry(a, i, parts[i]);
      ghost var e := a[..];
      forall k: nat | k < i + 1
        ensures EntryFor(EntryOf(e, k), k, parts[k])
      {
        if k < i { EntriesKept(d, e, i, k); }
      }
    }
    return a[..];
  }

  // ---------------------------------------------------------------------------------------------
  // Protective MBR
  // ---------------------------------------------------------------------------------------------

  ghost predicate MbrFor(n: nat, s: seq<Byte>) {
    && |s| == 512 && s[446..454] == [0, 0, 2, 0, 0xEE, 0xFF, 0xFF, 0xFF]
    && U32(s, 454) == 1 && U32(s, 458) == (if n - 1 < U32_LIMIT then n - 1 else U32_LIMIT - 1)
    && s[510] == 0x55 && s[511] == 0xAA
    && forall i: nat | i < 446 || 462 <= i < 510 :: s[i] == 0
  }

  method ProtectiveMbr(n: nat) returns (s: seq<Byte>)
    requires n >= 1
    ensures MbrFor(n, s)
  {
    var a := new Byte[SECTOR](_ => 0);
    ghost var d0 := a[..];
    Put(a, 446, [0, 0, 2, 0, 0xEE, 0xFF, 0xFF, 0xFF]);
    ghost var d1 := a[..];
    SpliceFacts(d0, 446, [0, 0, 2, 0, 0xEE, 0xFF, 0xFF, 0xFF]);
    PutU32(a, 454, 1);
    ghost var d2 := a[..];
    PutU32(a, 458, if n - 1 < U32_LIMIT then n - 1 else U32_LIMIT - 1);
    ghost var d3 := a[..];
    a[510] := 0x55;
    a[511] := 0xAA;
    s := a[..];
    Kept32(d2, d3, 458, 462, 454);
    Kept32(d3, s, 510, 512, 454);
    Kept32(d3, s, 510, 512, 458);
    assert s[446..454] == d1[446..454];
  }

  // ---------------------------------------------------------------------------------------------
  // The disk
  // ---------------------------------------------------------------------------------------------

  function LastUsable(n: nat): nat
    requires n >= 67
  {
    n - 34
  }

  function PlaceOf(n: nat, c: Copy): Place
    requires n >= 67
  {
    Place(HeadLba(n, c), if c.Primary? then n - 1 else 1, 34, LastUsable(n), ListLba(n, c))
  }

  function ListSum(crc: Crc, damage: Damage, list: seq<Byte>): (c: nat)
    ensures c < U32_LIMIT
  {
    if damage == SpoiltEntriesCrc then Flipped(crc(list)) else crc(list)
  }

  ghost predicate CopyOn(crc: Crc, damage: Damage, n: nat, list: seq<Byte>, d: seq<Byte>, c: Copy)
    requires n >= 67
  {
    && |d| == 512 * n && HeaderFor(crc, damage, PlaceOf(n, c), ListSum(crc, damage, list), Sector(d, HeadLba(n, c)))
    && HoldsAt(d, 512 * ListLba(n, c), list)
  }

  /** Both copies of the table, as the tool leaves them. */
  ghost predicate TableOn(crc: Crc, damage: Damage, n: nat, parts: seq<Part>, list: seq<Byte>, d: seq<Byte>) {
    n >= 67 && |d| == 512 * n && EntriesFor(parts, list) && forall c: Copy :: CopyOn(crc, damage, n, list, d, c)
  }

  lemma SectorKept(n: nat, d: seq<Byte>, e: seq<Byte>, lba: nat)
    requires n >= 67 && |d| == 512 * n && OnlyChanged(d, e, 512 * 34, 512 * (n - 33)) && lba < n && (lba < 34
             || n - 33 <= lba)
    ensures Sector(e, lba) == Sector(d, lba)
  {
  }

  /** Writing inside the usable area leaves a copy alone. */
  lemma CopyKept(crc: Crc, damage: Damage, n: nat, list: seq<Byte>, d: seq<Byte>, e: seq<Byte>, c: Copy)
    requires n >= 67 && |list| == ENTRY_BYTES && CopyOn(crc, damage, n, list, d, c)
    requires OnlyChanged(d, e, 512 * 34, 512 * (n - 33))
    ensures CopyOn(crc, damage, n, list, e, c)
  {
    SectorKept(n, d, e, HeadLba(n, c));
    HoldsElsewhere(d, e, 512 * ListLba(n, c), list);
  }

  lemma TableKept(crc: Crc, damage: Damage, n: nat, parts: seq<Part>, list: seq<Byte>, d: seq<Byte>, e: seq<Byte>)
    requires TableOn(crc, damage, n, parts, list, d) && OnlyChanged(d, e, 512 * 34, 512 * (n - 33))
    ensures TableOn(crc, damage, n, parts, list, e)
  {
    forall c: Copy
      ensures CopyOn(crc, damage, n, list, e, c)
    {
      CopyKept(crc, damage, n, list, d, e, c);
    }
  }

  method WriteTable(disk: array<Byte>, crc: Crc, damage: Damage, n: nat,
                    parts: seq<Part>) returns (ghost list: seq<Byte>)
    requires n >= 67 && disk.Length == 512 * n && 512 * n < U64_LIMIT && |parts| <= NUM_ENTRIES
    requires forall i: nat | i < |parts| :: parts[i].first < U64_LIMIT && parts[i].last < U64_LIMIT
    modifies disk
    ensures TableOn(crc, damage, n, parts, list, disk[..]) && MbrFor(n, disk[..512])
    ensures SameBytes(old(disk[..]), disk[..], 512 * 34, 512 * (n - 33))
  {
    var entries := BuildEntries(parts);
    list := entries;
    var sum: nat := crc(entries);
    if damage == SpoiltEntriesCrc { sum := Flipped(sum); }
    var mbr := ProtectiveMbr(n);
    var primary := BuildHeader(crc, damage, PlaceOf(n, Primary), sum);
    var backup := BuildHeader(crc, damage, PlaceOf(n, Backup), sum);
    PutSectors(disk, n, mbr, primary, entries, backup);
    TablePut(crc, damage, n, parts, list, disk[..], primary, backup);
  }

  lemma TablePut(crc: Crc, damage: Damage, n: nat, parts: seq<Part>, list: seq<Byte>, d: seq<Byte>,
                 primary: seq<Byte>, backup: seq<Byte>)
    requires n >= 67 && |d| == 512 * n && |primary| == |backup| == 512 && EntriesFor(parts, list)
    requires PlaceOk(PlaceOf(n, Primary)) && PlaceOk(PlaceOf(n, Backup))
    requires HeaderFor(crc, damage, PlaceOf(n, Primary), ListSum(crc, damage, list), primary)
    requires HeaderFor(crc, damage, PlaceOf(n, Backup), ListSum(crc, damage, list), backup)
    requires Sector(d, 1) == primary && Sector(d, n - 1) == backup
    requires HoldsAt(d, 1024, list) && HoldsAt(d, 512 * (n - 33), list)
    ensures TableOn(crc, damage, n, parts, list, d)
  {
    assert CopyOn(crc, damage, n, list, d, Primary) by { CopyPut(crc, damage, n, list, d, Primary, primary); }
    assert CopyOn(crc, damage, n, list, d, Backup) by { CopyPut(crc, damage, n, list, d, Backup, backup); }
  }

  lemma CopyPut(crc: Crc, damage: Damage, n: nat, list: seq<Byte>, d: seq<Byte>, c: Copy, head: seq<Byte>)
    requires n >= 67 && |d| == 512 * n && HoldsAt(d, 512 * ListLba(n, c), list)
    requires HeaderFor(crc, damage, PlaceOf(n, c), ListSum(crc, damage, list), head) && Sector(d, HeadLba(n, c)) == head
    ensures CopyOn(crc, damage, n, list, d, c)
  {
  }

  method PutSectors(disk: array<Byte>, n: nat, mbr: seq<Byte>, primary: seq<Byte>, list: seq<Byte>, backup: seq<Byte>)
    requires n >= 67 && disk.Length == 512 * n && |mbr| == |primary| == |backup| == 512 && |list| == ENTRY_BYTES
    modifies disk
    ensures disk[..][..512] == mbr && Sector(disk[..], 1) == primary && Sector(disk[..], n - 1) == backup
    ensures HoldsAt(disk[..], 1024, list) && HoldsAt(disk[..], 512 * (n - 33), list)
    ensures SameBytes(old(disk[..]), disk[..], 512 * 34, 512 * (n - 33))
  {
    ghost var d0 := disk[..];
    Put(disk, 0, mbr);
    ghost var d1 := disk[..];
    Put(disk, SECTOR, primary);
    ghost var d2 := disk[..];
    Put(disk, 2 * SECTOR, list);
    ghost var d3 := disk[..];
    Put(disk, (n - 33) * SECTOR, list);
    ghost var d4 := disk[..];
    Put(disk, (n - 1) * SECTOR, backup);
    FiveWrites(d0, d1, d2, d3, d4, disk[..], n, mbr, primary, list, backup);
    MiddleKept(d0, d1, d2, d3, d4, disk[..], n, mbr, primary, list, backup);
  }

  /** The usable area is not written to. */
  lemma MiddleKept(d0: seq<Byte>, d1: seq<Byte>, d2: seq<Byte>, d3: seq<Byte>, d4: seq<Byte>, d5: seq<Byte>, n: nat,
                   mbr: seq<Byte>, primary: seq<Byte>, list: seq<Byte>, backup: seq<Byte>)
    requires n >= 67 && |d0| == 512 * n && |mbr| == |primary| == |backup| == 512 && |list| == ENTRY_BYTES
    requires d1 == Splice(d0, 0, mbr) && d2 == Splice(d1, 512, primary) && d3 == Splice(d2, 1024, list)
    requires d4 == Splice(d3, 512 * (n - 33), list) && d5 == Splice(d4, 512 * (n - 1), backup)
    ensures SameBytes(d0, d5, 512 * 34, 512 * (n - 33))
  {
    SpliceFacts(d0, 0, mbr);
    SpliceFacts(d1, 512, primary);
    SpliceFacts(d2, 1024, list);
    SpliceFacts(d3, 512 * (n - 33), list);
    SpliceFacts(d4, 512 * (n - 1), backup);
  }

  lemma FiveWrites(d0: seq<Byte>, d1: seq<Byte>, d2: seq<Byte>, d3: seq<Byte>, d4: seq<Byte>, d5: seq<Byte>, n: nat,
                   mbr: seq<Byte>, primary: seq<Byte>, list: seq<Byte>, backup: seq<Byte>)
    requires n >= 67 && |d0| == 512 * n && |mbr| == |primary| == |backup| == 512 && |list| == ENTRY_BYTES
    requires d1 == Splice(d0, 0, mbr) && d2 == Splice(d1, 512, primary) && d3 == Splice(d2, 1024, list)
    requires d4 == Splice(d3, 512 * (n - 33), list) && d5 == Splice(d4, 512 * (n - 1), backup)
    ensures |d5| == 512 * n && d5[..512] == mbr && Sector(d5, 1) == primary && Sector(d5, n - 1) == backup
    ensures HoldsAt(d5, 1024, list) && HoldsAt(d5, 512 * (n - 33), list)
  {
    Spliced(d0, 0, mbr);
    Spliced(d1, 512, primary);
    Spliced(d2, 1024, list);
    Spliced(d3, 512 * (n - 33), list);
    Spliced(d4, 512 * (n - 1), backup);
    FrontKept(d1, d2, d3, 512, primary, 1024, list, 0, mbr);
    FrontKept(d3, d4, d5, 512 * (n - 33), list, 512 * (n - 1), backup, 0, mbr);
    FrontKept(d3, d4, d5, 512 * (n - 33), list, 512 * (n - 1), backup, 512, primary);
    FrontKept(d3, d4, d5, 512 * (n - 33), list, 512 * (n - 1), backup, 1024, list);
  }

  lemma Spliced(d: seq<Byte>, o: nat, s: seq<Byte>)
    requires o + |s| <= |d|
    ensures |Splice(d, o, s)| == |d| && HoldsAt(Splice(d, o, s), o, s)
    ensures forall p: nat, t: seq<Byte> | HoldsAt(d, p, t) && p + |t| <= o :: HoldsAt(Splice(d, o, s), p, t)
  {
    SpliceFacts(d, o, s);
    forall p: nat, t: seq<Byte> | HoldsAt(d, p, t) && p + |t| <= o
      ensures HoldsAt(Splice(d, o, s), p, t)
    {
      HoldsElsewhere(d, Splice(d, o, s), p, t);
    }
  }

  /** Two writes behind a run of bytes leave it alone. */
  lemma FrontKept(d: seq<Byte>, e: seq<Byte>, f: seq<Byte>, o: nat, s: seq<Byte>, p: nat, t: seq<Byte>, q: nat,
                  u: seq<Byte>)
    requires o + |s| <= |d| && p + |t| <= |d| && e == Splice(d, o, s) && f == Splice(e, p, t)
    requires HoldsAt(d, q, u) && q + |u| <= o && q + |u| <= p
    ensures HoldsAt(f, q, u)
  {
    Spliced(d, o, s);
    Spliced(e, p, t);
  }

  // ---------------------------------------------------------------------------------------------
  // The tool
  // ---------------------------------------------------------------------------------------------

  datatype Volume = Volume(first: nat, last: nat, files: seq<FatImage.File>)

  datatype Refusal = PartOutside | NotFat16

  function SizeOf(v: Volume): nat { if v.last + 1 < v.first then 0 else v.last + 1 - v.first }

  predicate Inside(n: nat, p: Part)
    requires n >= 67
  {
    34 <= p.first && p.last <= LastUsable(n)
  }

  ghost predicate VolumeOk(n: nat, v: Volume)
    requires n >= 67
  {
    && Inside(n, Part(v.first, v.last)) && v.first <= v.last + 1 && FatImage.AllNamed(v.files)
    && (FatSizing.Accepted(SizeOf(v)) ==> FatImage.Fits(SizeOf(v), FatSizing.FatSectors(SizeOf(v)), v.files))
  }

  /** What a caller owes: room for both copies, and a volume and a mark in the usable area -- the
      tool checks neither of the latter two. */
  ghost predicate Askable(n: nat, parts: seq<Part>, volume: Option<Volume>, mark: Option<nat>) {
    && n >= 67 && 512 * n < U64_LIMIT && |parts| <= NUM_ENTRIES
    && (forall i: nat | i < |parts| :: parts[i].first < U64_LIMIT)
    && (volume.Some? ==> VolumeOk(n, volume.value))
    && (mark.Some? ==> 34 <= mark.value <= LastUsable(n))
  }

  function Mark(): (s: seq<Byte>)
    ensures |s| == 8
  {
    [0x43, 0x41, 0x50, 0x52, 0x4f, 0x43, 0x4b, 0x53]
  }

  ghost predicate VolumeOn(d: seq<Byte>, v: Volume) {
    FatImage.ImageHolds(d, 512 * v.first, SizeOf(v), FatSizing.FatSectors(SizeOf(v)), v.files)
  }

  method AddVolume(disk: array<Byte>, n: nat, volume: Option<Volume>) returns (ok: bool)
    requires n >= 67 && disk.Length == 512 * n && (volume.Some? ==> VolumeOk(n, volume.value))
    modifies disk
    ensures ok <==> volume.Some? ==> FatSizing.Accepted(SizeOf(volume.value))
    ensures OnlyChanged(old(disk[..]), disk[..], 512 * 34, 512 * (n - 33))
    ensures if volume.Some? && ok then OnlyChanged(old(disk[..]), disk[..], 512 * volume.value.first,
                                                   512 * (volume.value.last + 1))
            else disk[..] == old(disk[..])
    ensures ok && volume.Some? ==> VolumeOn(disk[..], volume.value)
  {
    if volume.None? { return true; }
    var v := volume.value;
    var fat := FatWriter.BuildFat16(SizeOf(v), v.files);
    if fat.None? { return false; }
    ghost var before := disk[..];
    var image := fat.value[..];
    Put(disk, v.first * SECTOR, image);
    SpliceFacts(before, v.first * SECTOR, image);
    FatImage.ImageCopied(image, disk[..], 512 * v.first, SizeOf(v), FatSizing.FatSectors(SizeOf(v)), v.files);
    return true;
  }

  method AddMark(disk: array<Byte>, n: nat, mark: Option<nat>)
    requires n >= 67 && disk.Length == 512 * n && (mark.Some? ==> 34 <= mark.value <= LastUsable(n))
    modifies disk
    ensures mark.Some? ==> HoldsAt(disk[..], 512 * mark.value, Mark())
    ensures OnlyMarked(old(disk[..]), disk[..], mark)
  {
    if mark.Some? {
      ghost var before := disk[..];
      Put(disk, mark.value * SECTOR, Mark());
      SpliceFacts(before, mark.value * SECTOR, Mark());
    }
  }

  ghost predicate OnlyMarked(d: seq<Byte>, e: seq<Byte>, mark: Option<nat>) {
    if mark.Some? then OnlyChanged(d, e, 512 * mark.value, 512 * mark.value + 8) else e == d
  }

  ghost predicate Clear(volume: Option<Volume>, mark: Option<nat>) {
    mark.Some? && volume.Some? ==> !(volume.value.first <= mark.value <= volume.value.last)
  }

  lemma MarkSpares(d: seq<Byte>, e: seq<Byte>, volume: Option<Volume>, mark: Option<nat>)
    requires OnlyMarked(d, e, mark) && volume.Some? && Clear(volume, mark) && VolumeOn(d, volume.value)
    ensures VolumeOn(e, volume.value)
  {
    VolumeKept(d, e, volume.value);
  }

  /** Outside the usable area nothing changed: both copies and the protective MBR stand. */
  lemma TableStands(crc: Crc, damage: Damage, n: nat, parts: seq<Part>, list: seq<Byte>, d: seq<Byte>, e: seq<Byte>,
                    f: seq<Byte>, mark: Option<nat>)
    requires TableOn(crc, damage, n, parts, list, d) && MbrFor(n, d[..512])
    requires OnlyChanged(d, e, 512 * 34, 512 * (n - 33)) && OnlyMarked(e, f, mark)
    requires mark.Some? ==> 34 <= mark.value <= LastUsable(n)
    ensures MadeDisk(crc, damage, n, parts, list, f)
  {
    assert OnlyChanged(d, f, 512 * 34, 512 * (n - 33));
    TableKept(crc, damage, n, parts, list, d, f);
    assert f[..512] == d[..512];
  }

  /** The disk as built: table and protective MBR. */
  ghost predicate MadeDisk(crc: Crc, damage: Damage, n: nat, parts: seq<Part>, list: seq<Byte>, d: seq<Byte>) {
    TableOn(crc, damage, n, parts, list, d) && MbrFor(n, d[..512])
  }

  ghost predicate AllInside(n: nat, parts: seq<Part>)
    requires n >= 67
  {
    forall i: nat | i < |parts| :: Inside(n, parts[i])
  }

  /** Nothing but zeros in the usable area, apart from the volume and the mark. */
  ghost predicate BlankElsewhere(d: seq<Byte>, n: nat, volume: Option<Volume>, mark: Option<nat>)
    requires n >= 67
  {
    forall pos: nat | 512 * 34 <= pos < 512 * (n - 33) && pos < |d| && !InVolume(volume, pos) && !InMark(mark, pos) ::
      d[pos] == 0
  }

  ghost predicate InVolume(volume: Option<Volume>, pos: nat) {
    volume.Some? && 512 * volume.value.first <= pos < 512 * (volume.value.last + 1)
  }

  ghost predicate InMark(mark: Option<nat>, pos: nat) { mark.Some? && 512 * mark.value <= pos < 512 * mark.value + 8 }

  method MkGpt(crc: Crc, damage: Damage, n: nat, parts: seq<Part>, volume: Option<Volume>, mark: Option<nat>)
      returns (r: Result<array<Byte>, Refusal>, ghost list: seq<Byte>)
    requires Askable(n, parts, volume, mark)
    ensures r == Err(PartOutside) <==> !AllInside(n, parts)
    ensures r == Err(NotFat16) <==> AllInside(n, parts) && volume.Some? && !FatSizing.Accepted(SizeOf(volume.value))
    ensures r.Ok? ==> fresh(r.value) && MadeDisk(crc, damage, n, parts, list, r.value[..])
    ensures r.Ok? && volume.Some? && Clear(volume, mark) ==> VolumeOn(r.value[..], volume.value)
    ensures r.Ok? && mark.Some? ==> HoldsAt(r.value[..], 512 * mark.value, Mark())
    ensures r.Ok? ==> BlankElsewhere(r.value[..], n, volume, mark)
  {
    list := [];
    for i := 0 to |parts|
      invariant forall k: nat | k < i :: Inside(n, parts[k])
    {
      if parts[i].first < 34 || parts[i].last > LastUsable(n) { return Err(PartOutside), list; }
    }
    var disk := new Byte[n * SECTOR](_ => 0);
    assert disk[..] == Zeros(512 * n);
    list := WriteTable(disk, crc, damage, n, parts);
    ghost var d := disk[..];
    var ok := AddVolume(disk, n, volume);
    if !ok { return Err(NotFat16), list; }
    ghost var e := disk[..];
    AddMark(disk, n, mark);
    TableStands(crc, damage, n, parts, list, d, e, disk[..], mark);
    if volume.Some? && Clear(volume, mark) { MarkSpares(e, disk[..], volume, mark); }
    return Ok(disk), list;
  }

  /** A volume keeps its files under changes outside it. */
  lemma VolumeKept(d: seq<Byte>, e: seq<Byte>, v: Volume)
    requires VolumeOn(d, v) && |e| == |d|
    requires forall pos: nat | 512 * v.first <= pos < 512 * v.first + 512 * SizeOf(v) :: e[pos] == d[pos]
    ensures VolumeOn(e, v)
  {
    FatImage.ImageKept(d, e, 512 * v.first, SizeOf(v), FatSizing.FatSectors(SizeOf(v)), v.files);
  }
}
