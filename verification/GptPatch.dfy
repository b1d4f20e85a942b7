/**
  The tool that turns partition 2 into a driver partition: it changes one type, reseals both copies
  of the table and writes a directory with three documents.

  `Left` is the disk after a run and `Verdict` its outcome, both as functions of the disk before; the
  method `Patch` is tied to them, refusals included, and the lemmas say what they mean, for success and
  for every refusal.
 */
module GptPatch {
  import opened Wrappers
  import opened Bytes
  import opened GptTables

  const PART_FIRST: nat := 20001
  const PART_LAST: nat := 32700

  function LxpdType(): (s: seq<Byte>)
    ensures |s| == 16
  {
    [0x4c, 0x58, 0x50, 0x44, 0x2d, 0x43, 0x41, 0x50, 0x52, 0x4f, 0x43, 0x4b, 0x2d, 0x44, 0x52, 0x56]
  }

  function DirMagic(): (s: seq<Byte>)
    ensures |s| == 8
  {
    [0x4c, 0x58, 0x49, 0x4d, 0x47, 0x32, 0, 0]
  }

  datatype Docs = Docs(entry: seq<Byte>, image: seq<Byte>, manifest: seq<Byte>)

  /** How a run ends.  The first group leaves the disk alone, the second leaves the table patched and
      no directory, the third has written everything. */
  datatype Outcome =
    | ImageSize | BadHeader(error: HeaderError) | EntryList | Unused | OtherLayout | NoGuid
    | EntrySize | ManifestSize | HitsSuite | OutsidePartition
    | BackupBad(error: HeaderError) | Mismatch | Done

  // ---------------------------------------------------------------------------------------------
  // Resealing a header
  // ---------------------------------------------------------------------------------------------

  /** The header with a new entry checksum, its own checksum recomputed. */
  function Resealed(crc: Crc, s: seq<Byte>, size: nat, entriesCrc: U32Value): (r: seq<Byte>)
    requires |s| == 512
    ensures |r| == 512
  {
    var z := Splice(Splice(s, 88, Le32(entriesCrc)), 16, Le32(0));
    Splice(z, 16, Le32(crc(PySlice(z, 0, size))))
  }

  lemma ResealedBytes(crc: Crc, s: seq<Byte>, size: nat, entriesCrc: U32Value)
    requires |s| == 512
    ensures
      var r := Resealed(crc, s, size, entriesCrc);
      && SameBytes(s, r, 0, 16) && SameBytes(s, r, 20, 88) && SameBytes(s, r, 92, 512)
      && U32(r, 88) == entriesCrc
      && U32(r, 16) == crc(if size < 20 then (s[..16] + Zeros(4))[..size] else Covered(r, size))
  {
    var a := Splice(s, 88, Le32(entriesCrc));
    var z := Splice(a, 16, Le32(0));
    var sum := crc(PySlice(z, 0, size));
    var r := Splice(z, 16, Le32(sum));
    SpliceFacts(s, 88, Le32(entriesCrc));
    SpliceFacts(a, 16, Le32(0));
    SpliceFacts(z, 16, Le32(sum));
    Le32Read(a, 88, entriesCrc);
    Le32Read(r, 16, sum);
    SameU32(a, r, 88);
    if size < 20 {
      assert z[..16] == s[..16] && z[16..20] == Zeros(4);
      assert z[..20] == s[..16] + Zeros(4);
      assert z[..size] == z[..20][..size];
    } else {
      ZeroCovered(z, r, size);
    }
  }

  /** Zeroing the field or leaving it out of the sum is the same thing. */
  lemma ZeroCovered(z: seq<Byte>, r: seq<Byte>, size: nat)
    requires |z| == |r| == 512 && 20 <= size && z[16..20] == Le32(0)
    requires forall i: nat | i < 512 && !(16 <= i < 20) :: r[i] == z[i]
    ensures Covered(r, size) == PySlice(z, 0, size)
  {
    assert Le32(0) == Zeros(4);
    var end := if size < 512 then size else 512;
    assert r[..16] == z[..16] && r[20..end] == z[20..end];
    assert z[..end] == z[..16] + z[16..20] + z[20..end];
  }

  /** Resealing makes a header pass exactly if signature and revision are right, and changes no field
      but the entry checksum.  A header size below 20, which the tool does not refuse, is the exception:
      it seals the bytes the size says and checks 20, so that the two sums must happen to agree. */
  lemma ResealedParses(crc: Crc, s: seq<Byte>, entriesCrc: U32Value)
    requires |s| == 512
    ensures
      var r, size, front := Resealed(crc, s, Fields(s).size, entriesCrc), Fields(s).size, s[..16] + Zeros(4);
      ParseHeader(crc, r) ==
        if s[..8] != Signature() then Err(NoSignature)
        else if U32(s, 8) != REVISION then Err(ForeignRevision)
        else if size < 20 && crc(front) != crc(front[..size]) then Err(HeaderCrc)
        else Ok(Fields(s).(entriesCrc := entriesCrc))
  {
    var r := Resealed(crc, s, Fields(s).size, entriesCrc);
    ResealedBytes(crc, s, Fields(s).size, entriesCrc);
    SameFields(s, r);
    if Fields(s).size < 20 {
      assert r[..16] == s[..16];
      assert Covered(r, Fields(s).size) == s[..16] + Zeros(4);
    }
  }

  method Reseal(crc: Crc, sector: seq<Byte>, size: nat, entriesCrc: U32Value) returns (r: seq<Byte>)
    requires |sector| == 512
    ensures r == Resealed(crc, sector, size, entriesCrc)
  {
    var head := new Byte[SECTOR](i requires 0 <= i < SECTOR => sector[i]);
    assert head[..] == sector;
    Put(head, 88, Le32(entriesCrc));
    Put(head, 16, Le32(0));
    var sum := crc(PySlice(head[..], 0, size));
    Put(head, 16, Le32(sum));
    return head[..];
  }

  // ---------------------------------------------------------------------------------------------
  // The table
  // ---------------------------------------------------------------------------------------------

  predicate Listed(h: Header) { h.num >= 2 && h.entrySize == ENTRY_SIZE }

  /** Two copies where the image tool puts them; nothing about their checksums. */
  ghost predicate Placed(n: nat, d: seq<Byte>) {
    && 32734 <= n && |d| == 512 * n && (forall c: Copy :: CopyPlaced(n, d, c))
    && Fields(Sector(d, 1)).alt == n - 1
  }

  ghost predicate CopyPlaced(n: nat, d: seq<Byte>, c: Copy)
    requires n >= 67
  {
    |d| == 512 * n && PlacedAt(Fields(Sector(d, HeadLba(n, c))), ListLba(n, c))
  }

  predicate PlacedAt(h: Header, entryLba: nat) {
    h.size == HEADER_SIZE && h.entryLba == entryLba && h.num == NUM_ENTRIES && h.entrySize == ENTRY_SIZE
  }

  function ListOn(d: seq<Byte>): (list: seq<Byte>)
    requires |d| >= 17408
    ensures |list| == ENTRY_BYTES
  {
    d[1024..17408]
  }

  /** The entries with the type of partition 2 replaced. */
  function NewList(list: seq<Byte>): (r: seq<Byte>)
    requires |list| == ENTRY_BYTES
    ensures |r| == ENTRY_BYTES
  {
    Splice(list, 128, LxpdType())
  }

  /** The disk with both copies rewritten for a new list, in the tool's order. */
  function Rewritten(crc: Crc, n: nat, d: seq<Byte>, list: seq<Byte>): (e: seq<Byte>)
    requires n >= 67 && |d| == 512 * n && |list| == ENTRY_BYTES
    ensures |e| == |d|
  {
    var d1 := Splice(d, 1024, list);
    var d2 := Splice(d1, 512, Resealed(crc, Sector(d1, 1), HEADER_SIZE, crc(list)));
    var d3 := Splice(d2, 512 * (n - 33), list);
    Splice(d3, 512 * (n - 1), Resealed(crc, Sector(d2, n - 1), HEADER_SIZE, crc(list)))
  }

  function Patched(crc: Crc, n: nat, d: seq<Byte>): (e: seq<Byte>)
    requires n >= 67 && |d| == 512 * n
    ensures |e| == |d|
  {
    Rewritten(crc, n, d, NewList(ListOn(d)))
  }

  ghost predicate InTable(n: nat, pos: nat) {
    512 <= pos < 17408 || 512 * (n - 33) <= pos < 512 * n
  }

  /** Four writes that do not overlap. */
  lemma FourWrites(d: seq<Byte>, d1: seq<Byte>, d2: seq<Byte>, d3: seq<Byte>, d4: seq<Byte>, n: nat, list: seq<Byte>,
                   head: seq<Byte>, backup: seq<Byte>)
    requires n >= 67 && |d| == 512 * n && |list| == ENTRY_BYTES && |head| == |backup| == 512
    requires d1 == Splice(d, 1024, list) && d2 == Splice(d1, 512, head)
    requires d3 == Splice(d2, 512 * (n - 33), list) && d4 == Splice(d3, 512 * (n - 1), backup)
    ensures |d4| == |d| && Sector(d1, 1) == Sector(d, 1) && Sector(d2, n - 1) == Sector(d, n - 1)
    ensures HoldsAt(d4, 1024, list) && HoldsAt(d4, 512 * (n - 33), list)
    ensures Sector(d4, 1) == head && Sector(d4, n - 1) == backup
    ensures forall pos: nat | pos < |d| && !InTable(n, pos) :: d4[pos] == d[pos]
  {
    SpliceFacts(d, 1024, list);
    SpliceFacts(d1, 512, head);
    SpliceFacts(d2, 512 * (n - 33), list);
    SpliceFacts(d3, 512 * (n - 1), backup);
    assert Sector(d1, 1) == Sector(d, 1);
    assert Sector(d2, n - 1) == Sector(d, n - 1);
    HoldsElsewhere(d1, d2, 1024, list);
    HoldsElsewhere(d2, d4, 1024, list);
    HoldsElsewhere(d3, d4, 512 * (n - 33), list);
    assert Sector(d4, 1) == d2[512..1024];
  }

  /** The same list in both places, and each header resealed for it. */
  ghost predicate Rewrote(crc: Crc, n: nat, d: seq<Byte>, e: seq<Byte>, list: seq<Byte>) {
    n >= 67 && |e| == |d| == 512 * n && |list| == ENTRY_BYTES && forall c: Copy :: CopyRewrote(crc, n, d, e, list, c)
  }

  ghost predicate CopyRewrote(crc: Crc, n: nat, d: seq<Byte>, e: seq<Byte>, list: seq<Byte>, c: Copy)
    requires n >= 67 && |e| == |d| == 512 * n
  {
    && HoldsAt(e, 512 * ListLba(n, c), list)
    && Sector(e, HeadLba(n, c)) == Resealed(crc, Sector(d, HeadLba(n, c)), HEADER_SIZE, crc(list))
  }

  /** What the four writes leave; nothing else is touched. */
  lemma RewrittenTable(crc: Crc, n: nat, d: seq<Byte>, list: seq<Byte>)
    requires n >= 67 && |d| == 512 * n && |list| == ENTRY_BYTES
    ensures Rewrote(crc, n, d, Rewritten(crc, n, d, list), list)
    ensures forall pos: nat | pos < |d| && !InTable(n, pos) :: Rewritten(crc, n, d, list)[pos] == d[pos]
  {
    var d1 := Splice(d, 1024, list);
    var head := Resealed(crc, Sector(d1, 1), HEADER_SIZE, crc(list));
    var d2 := Splice(d1, 512, head);
    var backup := Resealed(crc, Sector(d2, n - 1), HEADER_SIZE, crc(list));
    var d3 := Splice(d2, 512 * (n - 33), list);
    FourWrites(d, d1, d2, d3, Splice(d3, 512 * (n - 1), backup), n, list, head, backup);
    forall c: Copy
      ensures CopyRewrote(crc, n, d, Rewritten(crc, n, d, list), list, c)
    {
    }
  }

  /** Later writes elsewhere do not matter. */
  lemma RewroteKept(crc: Crc, n: nat, d: seq<Byte>, p: seq<Byte>, e: seq<Byte>, list: seq<Byte>)
    requires Rewrote(crc, n, d, p, list) && |e| == |p|
    requires forall pos: nat | pos < |p| && InTable(n, pos) :: e[pos] == p[pos]
    ensures Rewrote(crc, n, d, e, list)
  {
    forall c: Copy
      ensures CopyRewrote(crc, n, d, e, list, c)
    {
      assert CopyRewrote(crc, n, d, p, list, c);
      assert Sector(e, HeadLba(n, c)) == Sector(p, HeadLba(n, c));
      HoldsElsewhere(p, e, 512 * ListLba(n, c), list);
    }
  }

  /** The backup header is found where it was: the first two writes do not reach it. */
  lemma BackupUnmoved(d: seq<Byte>, n: nat, list: seq<Byte>, head: seq<Byte>)
    requires n >= 67 && |d| == 512 * n && |list| == ENTRY_BYTES && |head| == 512
    ensures Sector(Splice(Splice(d, 1024, list), 512, head), n - 1) == Sector(d, n - 1)
  {
    SpliceFacts(d, 1024, list);
    SpliceFacts(Splice(d, 1024, list), 512, head);
  }

  // The tool goes wherever a header that parses sends it: to its entry list, to the other copy's header,
  // and to the list that header names -- as it reads after the first two writes.

  function HeadRewritten(crc: Crc, d: seq<Byte>, entryLba: nat, size: nat, list: seq<Byte>): (e: seq<Byte>)
    requires |d| >= 1024 && 512 * entryLba + |list| <= |d|
    ensures |e| == |d|
  {
    var d1 := Splice(d, 512 * entryLba, list);
    Splice(d1, 512, Resealed(crc, Sector(d1, 1), size, crc(list)))
  }

  /** Everything the tool is sent to lies on the disk. */
  predicate OnDisk(crc: Crc, d: seq<Byte>, entryLba: nat, alt: nat, size: nat, list: seq<Byte>) {
    && |d| >= 1024 && 512 * entryLba + |list| <= |d| && 512 * alt + 512 <= |d|
    && 512 * OtherList(crc, d, entryLba, alt, size, list) + |list| <= |d|
  }

  /** Where the other copy's header says its list is. */
  function OtherList(crc: Crc, d: seq<Byte>, entryLba: nat, alt: nat, size: nat, list: seq<Byte>): nat
    requires |d| >= 1024 && 512 * entryLba + |list| <= |d| && 512 * alt + 512 <= |d|
  {
    U64(Sector(HeadRewritten(crc, d, entryLba, size, list), alt), 72)
  }

  function RewrittenAnywhere(crc: Crc, d: seq<Byte>, entryLba: nat, alt: nat, size: nat,
                             list: seq<Byte>): (e: seq<Byte>)
    requires OnDisk(crc, d, entryLba, alt, size, list)
    ensures |e| == |d|
  {
    var d2 := HeadRewritten(crc, d, entryLba, size, list);
    var d3 := Splice(d2, 512 * U64(Sector(d2, alt), 72), list);
    Splice(d3, 512 * alt, Resealed(crc, Sector(d2, alt), size, crc(list)))
  }

  /** Wherever it is sent, the tool writes two lists and two sectors and nothing else. */
  lemma RewrittenFrame(crc: Crc, d: seq<Byte>, entryLba: nat, alt: nat, size: nat, list: seq<Byte>, pos: nat)
    requires OnDisk(crc, d, entryLba, alt, size, list) && pos < |d|
    requires RewrittenAnywhere(crc, d, entryLba, alt, size, list)[pos] != d[pos]
    ensures
      var other := OtherList(crc, d, entryLba, alt, size, list);
      || 512 * entryLba <= pos < 512 * entryLba + |list| || 512 <= pos < 1024
      || 512 * other <= pos < 512 * other + |list| || 512 * alt <= pos < 512 * alt + 512
  {
    var d1 := Splice(d, 512 * entryLba, list);
    var d2 := HeadRewritten(crc, d, entryLba, size, list);
    var d3 := Splice(d2, 512 * U64(Sector(d2, alt), 72), list);
    SpliceFacts(d, 512 * entryLba, list);
    SpliceFacts(d1, 512, Resealed(crc, Sector(d1, 1), size, crc(list)));
    SpliceFacts(d2, 512 * U64(Sector(d2, alt), 72), list);
    SpliceFacts(d3, 512 * alt, Resealed(crc, Sector(d2, alt), size, crc(list)));
  }

  method RewriteCopies(disk: array<Byte>, crc: Crc, entryLba: nat, alt: nat, size: nat, list: seq<Byte>)
    requires OnDisk(crc, disk[..], entryLba, alt, size, list)
    modifies disk
    ensures disk[..] == RewrittenAnywhere(crc, old(disk[..]), entryLba, alt, size, list)
  {
    RewriteOwn(disk, crc, entryLba, size, list);
    RewriteOther(disk, crc, alt, size, list);
  }

  method RewriteOwn(disk: array<Byte>, crc: Crc, entryLba: nat, size: nat, list: seq<Byte>)
    requires disk.Length >= 1024 && 512 * entryLba + |list| <= disk.Length
    modifies disk
    ensures disk[..] == HeadRewritten(crc, old(disk[..]), entryLba, size, list)
  {
    Put(disk, entryLba * SECTOR, list);
    var head := Reseal(crc, Sector(disk[..], 1), size, crc(list));
    Put(disk, SECTOR, head);
  }

  method RewriteOther(disk: array<Byte>, crc: Crc, alt: nat, size: nat, list: seq<Byte>)
    requires 512 * alt + 512 <= disk.Length && 512 * U64(Sector(disk[..], alt), 72) + |list| <= disk.Length
    modifies disk
    ensures
      var s := Sector(old(disk[..]), alt);
      disk[..] == Splice(Splice(old(disk[..]), 512 * U64(s, 72), list), 512 * alt, Resealed(crc, s, size, crc(list)))
  {
    var backup := Sector(disk[..], alt);
    Put(disk, U64(backup, 72) * SECTOR, list);
    var head := Reseal(crc, backup, size, crc(list));
    Put(disk, alt * SECTOR, head);
  }

  /** Sector `lba` lies outside a list of so many bytes at `at`. */
  predicate Clear(at: nat, bytes: nat, lba: nat) { lba < at || 512 * at + bytes <= 512 * lba }

  /** The places a header `h` and the other copy `b` send the tool to do not spoil one another: two header
      sectors, neither in a list, and the two lists in one place or apart. */
  predicate Apart(h: Header, b: Header, bytes: nat) {
    && h.alt != 1
    && Clear(h.entryLba, bytes, 1) && Clear(h.entryLba, bytes, h.alt)
    && Clear(b.entryLba, bytes, 1) && Clear(b.entryLba, bytes, h.alt)
    && (h.entryLba == b.entryLba || 512 * h.entryLba + bytes <= 512 * b.entryLba
        || 512 * b.entryLba + bytes <= 512 * h.entryLba)
  }

  lemma WrittenApart(d: seq<Byte>, d1: seq<Byte>, d2: seq<Byte>, d3: seq<Byte>, d4: seq<Byte>, h: Header, b: Header,
                     list: seq<Byte>, head: seq<Byte>, backup: seq<Byte>)
    requires |d| >= 1024 && Apart(h, b, |list|) && |head| == |backup| == 512 && 512 * h.alt + 512 <= |d|
    requires 512 * h.entryLba + |list| <= |d| && 512 * b.entryLba + |list| <= |d|
    requires d1 == Splice(d, 512 * h.entryLba, list) && d2 == Splice(d1, 512, head)
    requires d3 == Splice(d2, 512 * b.entryLba, list) && d4 == Splice(d3, 512 * h.alt, backup)
    ensures HoldsAt(d4, 512 * h.entryLba, list) && HoldsAt(d4, 512 * b.entryLba, list)
    ensures HoldsAt(d4, 512, head) && HoldsAt(d4, 512 * h.alt, backup)
  {
    var p, q, a := 512 * h.entryLba, 512 * b.entryLba, 512 * h.alt;
    SpliceFacts(d, p, list);
    SpliceFacts(d1, 512, head);
    SpliceFacts(d2, q, list);
    SpliceFacts(d3, a, backup);
    StillHolds(d1, 512, head, p, list);
    StillHolds(d2, q, list, p, list);
    StillHolds(d3, a, backup, p, list);
    StillHolds(d3, a, backup, q, list);
    StillHolds(d2, q, list, 512, head);
    StillHolds(d3, a, backup, 512, head);
  }

  /** A write elsewhere, or of the same once more, spoils nothing. */
  lemma StillHolds(d: seq<Byte>, o: nat, s: seq<Byte>, p: nat, t: seq<Byte>)
    requires o + |s| <= |d| && HoldsAt(d, p, t) && (o + |s| <= p || p + |t| <= o || (o == p && s == t))
    ensures HoldsAt(Splice(d, o, s), p, t)
  {
    SpliceFacts(d, o, s);
    if o != p || s != t { HoldsElsewhere(d, Splice(d, o, s), p, t); }
  }

  /** The two headers as they are found: the first two writes reach neither. */
  lemma HeadersFound(crc: Crc, d: seq<Byte>, h: Header, b: Header, list: seq<Byte>)
    requires |d| >= 1024 && Apart(h, b, |list|)
    requires 512 * h.entryLba + |list| <= |d| && 512 * h.alt + 512 <= |d|
    ensures Sector(Splice(d, 512 * h.entryLba, list), 1) == Sector(d, 1)
    ensures Sector(HeadRewritten(crc, d, h.entryLba, h.size, list), h.alt) == Sector(d, h.alt)
  {
    var d1 := Splice(d, 512 * h.entryLba, list);
    SpliceFacts(d, 512 * h.entryLba, list);
    SpliceFacts(d1, 512, Resealed(crc, Sector(d1, 1), h.size, crc(list)));
  }

  /** Both headers, `h` and `b` before, are resealed for the list and both lists stand. */
  ghost predicate Sent(crc: Crc, d: seq<Byte>, e: seq<Byte>, h: Header, b: Header, list: seq<Byte>) {
    && |e| == |d| >= 1024 && 512 * h.alt + 512 <= |d| && h == Fields(Sector(d, 1)) && b == Fields(Sector(d, h.alt))
    && HoldsAt(e, 512 * h.entryLba, list) && HoldsAt(e, 512 * b.entryLba, list)
    && HoldsAt(e, 512, Resealed(crc, Sector(d, 1), h.size, crc(list)))
    && HoldsAt(e, 512 * h.alt, Resealed(crc, Sector(d, h.alt), h.size, crc(list)))
  }

  /** Wherever the headers send it, if the places are apart the tool does what it means to. */
  lemma RewrittenApart(crc: Crc, d: seq<Byte>, h: Header, b: Header, list: seq<Byte>)
    requires OnDisk(crc, d, h.entryLba, h.alt, h.size, list) && Apart(h, b, |list|)
    requires h == Fields(Sector(d, 1)) && b == Fields(Sector(d, h.alt))
    ensures Sent(crc, d, RewrittenAnywhere(crc, d, h.entryLba, h.alt, h.size, list), h, b, list)
  {
    HeadersFound(crc, d, h, b, list);
    var d1 := Splice(d, 512 * h.entryLba, list);
    var d2 := HeadRewritten(crc, d, h.entryLba, h.size, list);
    var head := Resealed(crc, Sector(d, 1), h.size, crc(list));
    var backup := Resealed(crc, Sector(d, h.alt), h.size, crc(list));
    var d3 := Splice(d2, 512 * b.entryLba, list);
    WrittenApart(d, d1, d2, d3, Splice(d3, 512 * h.alt, backup), h, b, list, head, backup);
  }

  /** On a table where the image tool puts it these are the four writes that do not overlap. */
  lemma PlacedRewritten(crc: Crc, n: nat, d: seq<Byte>, list: seq<Byte>)
    requires n >= 67 && |d| == 512 * n && |list| == ENTRY_BYTES && U64(Sector(d, n - 1), 72) == n - 33
    ensures OnDisk(crc, d, 2, n - 1, HEADER_SIZE, list)
    ensures RewrittenAnywhere(crc, d, 2, n - 1, HEADER_SIZE, list) == Rewritten(crc, n, d, list)
  {
    var d1 := Splice(d, 1024, list);
    BackupUnmoved(d, n, list, Resealed(crc, Sector(d1, 1), HEADER_SIZE, crc(list)));
  }

  lemma WherePlaced(n: nat, d: seq<Byte>)
    requires Placed(n, d)
    ensures PlacedAt(Fields(Sector(d, 1)), 2) && U64(Sector(d, n - 1), 72) == n - 33
  {
    assert CopyPlaced(n, d, Primary) && CopyPlaced(n, d, Backup);
  }

  lemma ListRead(d: seq<Byte>, h: Header)
    requires |d| >= 17408 && PlacedAt(h, 2)
    ensures PySlice(d, h.entryLba * 512, h.entryLba * 512 + h.num * h.entrySize) == ListOn(d)
  {
    assert h.num * h.entrySize == 16384;
  }

  /** The entries a header names, with the type of the second one replaced. */
  function NewEntries(d: seq<Byte>, h: Header): (list: seq<Byte>)
    requires h.num >= 2 && h.entrySize == ENTRY_SIZE && 512 * h.entryLba + h.num * h.entrySize <= |d|
  {
    Splice(d[512 * h.entryLba..512 * h.entryLba + h.num * h.entrySize], 128, LxpdType())
  }

  method PatchTable(disk: array<Byte>, crc: Crc, h: Header)
    requires h.num >= 2 && h.entrySize == ENTRY_SIZE && 512 * h.entryLba + h.num * h.entrySize <= disk.Length
    requires OnDisk(crc, disk[..], h.entryLba, h.alt, h.size, NewEntries(disk[..], h))
    modifies disk
    ensures disk[..] == RewrittenAnywhere(crc, old(disk[..]), h.entryLba, h.alt, h.size, NewEntries(old(disk[..]), h))
  {
    var list := NewEntries(disk[..], h);
    RewriteCopies(disk, crc, h.entryLba, h.alt, h.size, list);
  }

  lemma PlacedPatched(crc: Crc, n: nat, d: seq<Byte>)
    requires Placed(n, d)
    ensures
      var h := Fields(Sector(d, 1));
      && h.num >= 2 && h.entrySize == ENTRY_SIZE && 512 * h.entryLba + h.num * h.entrySize <= |d|
      && OnDisk(crc, d, h.entryLba, h.alt, h.size, NewEntries(d, h))
      && RewrittenAnywhere(crc, d, h.entryLba, h.alt, h.size, NewEntries(d, h)) == Patched(crc, n, d)
  {
    WherePlaced(n, d);
    ListRead(d, Fields(Sector(d, 1)));
    PlacedRewritten(crc, n, d, NewList(ListOn(d)));
  }

  // ---------------------------------------------------------------------------------------------
  // The directory and its documents
  // ---------------------------------------------------------------------------------------------

  function Sectors(len: nat): (k: nat)
    ensures 512 * k >= len && (k > 0 ==> 512 * (k - 1) < len)
  {
    (len + 511) / 512
  }

  function Padded(doc: seq<Byte>): (s: seq<Byte>)
    ensures |s| == 512 * Sectors(|doc|) && s[..|doc|] == doc
  {
    doc + Zeros(512 * Sectors(|doc|) - |doc|)
  }

  predicate Sized(docs: Docs) {
    1 <= |docs.entry| <= 4096 && 1 <= |docs.image| <= 8192 && 1 <= |docs.manifest| <= 8192
  }

  function DirSector(docs: Docs): (s: seq<Byte>)
    requires Sized(docs)
    ensures |s| == 512
  {
    DirMagic() + Le32(|docs.entry|) + Le32(|docs.image|) + Le32(|docs.manifest|) + Le32(0) + Zeros(488)
  }

  function Stream(docs: Docs): (s: seq<Byte>)
    ensures |s| == 512 * (Needed(docs) - 1)
  {
    Padded(docs.entry) + Padded(docs.image) + Padded(docs.manifest)
  }

  function Needed(docs: Docs): (k: nat)
    ensures k >= 1
  {
    1 + Sectors(|docs.entry|) + Sectors(|docs.image|) + Sectors(|docs.manifest|)
  }

  function WithDocs(d: seq<Byte>, lba: nat, docs: Docs): (e: seq<Byte>)
    requires Sized(docs) && 512 * (lba + Needed(docs)) <= |d|
    ensures |e| == |d|
  {
    Splice(Splice(d, 512 * lba, DirSector(docs)), 512 * (lba + 1), Stream(docs))
  }

  /** A document appended to whole sectors, and filled up to whole sectors. */
  method Append(stream: seq<Byte>, doc: seq<Byte>) returns (r: seq<Byte>)
    requires |stream| % 512 == 0
    ensures r == stream + Padded(doc)
  {
    r := stream + doc;
    assert r == stream + doc + Zeros(0);
    while |r| % SECTOR != 0
      invariant |stream| + |doc| <= |r| <= |stream| + 512 * Sectors(|doc|)
      invariant r == stream + doc + Zeros(|r| - |stream| - |doc|)
      decreases |stream| + 512 * Sectors(|doc|) - |r|
    {
      r := r + [0];
    }
    assert r == stream + (doc + Zeros(|r| - |stream| - |doc|));
  }

  method BuildDir(docs: Docs) returns (s: seq<Byte>)
    requires Sized(docs)
    ensures s == DirSector(docs)
  {
    var dir := new Byte[SECTOR](_ => 0);
    assert dir[..] == [] + Zeros(SECTOR);
    ghost var w: seq<Byte> := [];
    w := PutNext(dir, w, 0, DirMagic());
    w := PutNext(dir, w, 8, Le32(|docs.entry|));
    w := PutNext(dir, w, 12, Le32(|docs.image|));
    w := PutNext(dir, w, 16, Le32(|docs.manifest|));
    w := PutNext(dir, w, 20, Le32(0));
    assert w == DirMagic() + Le32(|docs.entry|) + Le32(|docs.image|) + Le32(|docs.manifest|) + Le32(0);
    return dir[..];
  }

  method BuildStream(docs: Docs) returns (s: seq<Byte>)
    ensures s == Stream(docs)
  {
    s := Append([], docs.entry);
    assert s == Padded(docs.entry);
    s := Append(s, docs.image);
    s := Append(s, docs.manifest);
  }

  method WriteDocs(disk: array<Byte>, lba: nat, docs: Docs)
    requires Sized(docs) && 512 * (lba + Needed(docs)) <= disk.Length
    modifies disk
    ensures disk[..] == WithDocs(old(disk[..]), lba, docs)
  {
    var dir := BuildDir(docs);
    var stream := BuildStream(docs);
    Put(disk, lba * SECTOR, dir);
    Put(disk, (lba + 1) * SECTOR, stream);
  }

  /** Only the directory and the documents differ. */
  lemma DocsFrame(d: seq<Byte>, lba: nat, docs: Docs)
    requires Sized(docs) && 512 * (lba + Needed(docs)) <= |d|
    ensures
      var e := WithDocs(d, lba, docs);
      && HoldsAt(e, 512 * lba, DirSector(docs)) && HoldsAt(e, 512 * (lba + 1), Stream(docs))
      && forall pos: nat | pos < |d| && !(512 * lba <= pos < 512 * (lba + Needed(docs))) :: e[pos] == d[pos]
  {
    var d1 := Splice(d, 512 * lba, DirSector(docs));
    SpliceFacts(d, 512 * lba, DirSector(docs));
    SpliceFacts(d1, 512 * (lba + 1), Stream(docs));
    HoldsElsewhere(d1, WithDocs(d, lba, docs), 512 * lba, DirSector(docs));
  }

  // ---------------------------------------------------------------------------------------------
  // The tool
  // ---------------------------------------------------------------------------------------------

  /** Sectors the suite uses itself. */
  const RESERVED_LBAS: set<nat> := {20001, 20002, 32710}

  /** The checks before anything is written: `Done` if all pass. */
  function Admitted(crc: Crc, d: seq<Byte>, image: seq<Byte>): Outcome
    requires |d| >= 17408
  {
    var head := ParseHeader(crc, Sector(d, 1));
    var entry := EntryOf(ListOn(d), 1);
    if !(1 <= |image| <= 8192) then ImageSize
    else if head.Err? then BadHeader(head.error)
    else if !Listed(head.value) then EntryList
    else if TypeOf(entry) == Zeros(16) then Unused
    else if FirstOf(entry) != PART_FIRST || LastOf(entry) != PART_LAST then OtherLayout
    else if GuidOf(entry) == Zeros(16) then NoGuid
    else Done
  }

  /** The checks after the table is rewritten. */
  function DocsAdmitted(docs: Docs, lba: nat): Outcome {
    if !(1 <= |docs.entry| <= 4096) then EntrySize
    else if !(1 <= |docs.manifest| <= 8192) then ManifestSize
    else if exists x :: x in RESERVED_LBAS && lba <= x < lba + Needed(docs) then HitsSuite
    else if lba < PART_FIRST || lba + Needed(docs) - 1 > PART_LAST then OutsidePartition
    else Done
  }

  function DocsFor(d: seq<Byte>, image: seq<Byte>, entryDoc: seq<Byte> -> seq<Byte>, manifest: seq<Byte>): Docs
    requires |d| >= 17408
  {
    Docs(entryDoc(GuidOf(EntryOf(ListOn(d), 1))), image, manifest)
  }

  function BackupVerdict(backup: seq<Byte>): Outcome
    requires |backup| == 512
  {
    if backup[..8] != Signature() then BackupBad(NoSignature)
    else if U32(backup, 8) != REVISION then BackupBad(ForeignRevision)
    else Done
  }

  /** The whole verdict: after all writes only the backup header's own signature and revision, which
      nothing looked at before, can still fail. */
  function Verdict(crc: Crc, n: nat, d: seq<Byte>, docs: Docs, lba: nat): Outcome
    requires n >= 67 && |d| == 512 * n
  {
    var early := Admitted(crc, d, docs.image);
    var late := DocsAdmitted(docs, lba);
    if early != Done then early
    else if late != Done then late
    else BackupVerdict(Sector(d, n - 1))
  }

  function Left(crc: Crc, n: nat, d: seq<Byte>, docs: Docs, lba: nat): (e: seq<Byte>)
    requires n >= 32734 && |d| == 512 * n
    ensures |e| == |d|
  {
    if Admitted(crc, d, docs.image) != Done then d
    else if DocsAdmitted(docs, lba) != Done then Patched(crc, n, d)
    else WithDocs(Patched(crc, n, d), lba, docs)
  }

  // What the verdicts mean, on the bytes of the disk.

  /** A header sector that parses: signature, revision, and a checksum over itself with a zero in its place. */
  ghost predicate SoundHeader(crc: Crc, s: seq<Byte>)
    requires |s| == 512
  {
    && s[..8] == [0x45, 0x46, 0x49, 0x20, 0x50, 0x41, 0x52, 0x54] && U32(s, 8) == 0x10000
    && crc(s[..16] + [0, 0, 0, 0] + PySlice(s, 20, U32(s, 12))) == U32(s, 16)
  }

  lemma SoundParses(crc: Crc, s: seq<Byte>)
    requires |s| == 512
    ensures ParseHeader(crc, s).Ok? <==> SoundHeader(crc, s)
    ensures ParseHeader(crc, s) == Err(NoSignature) <==> s[..8] != [0x45, 0x46, 0x49, 0x20, 0x50, 0x41, 0x52, 0x54]
    ensures ParseHeader(crc, s) == Err(ForeignRevision) <==>
              s[..8] == [0x45, 0x46, 0x49, 0x20, 0x50, 0x41, 0x52, 0x54] && U32(s, 8) != 0x10000
  {
    assert Zeros(4) == [0, 0, 0, 0];
  }

  // The second entry of the primary list, which on a disk laid out by the image tool lies at byte 1152.

  ghost predicate ManyEntries(d: seq<Byte>) requires |d| >= 17408 { U32(d, 592) >= 2 && U32(d, 596) == 128 }

  ghost predicate InUse(d: seq<Byte>) requires |d| >= 17408 { d[1152..1168] != Zeros(16) }

  ghost predicate InPlace(d: seq<Byte>) requires |d| >= 17408 { U64(d, 1184) == 20001 && U64(d, 1192) == 32700 }

  ghost predicate HasGuid(d: seq<Byte>) requires |d| >= 17408 { d[1168..1184] != Zeros(16) }

  ghost predicate HeadOf(crc: Crc, d: seq<Byte>, image: seq<Byte>)
    requires |d| >= 17408
  {
    1 <= |image| <= 8192 && SoundHeader(crc, d[512..1024])
  }

  /** Everything the tool wants of image and disk before it writes. */
  ghost predicate Patchable(crc: Crc, d: seq<Byte>, image: seq<Byte>)
    requires |d| >= 17408
  {
    HeadOf(crc, d, image) && ManyEntries(d) && InUse(d) && InPlace(d) && HasGuid(d)
  }

  /** When exactly the tool refuses before it writes, and with what. */
  ghost predicate EarlyRefusals(crc: Crc, d: seq<Byte>, image: seq<Byte>, r: Outcome)
    requires |d| >= 17408
  {
    && (r == ImageSize <==> !(1 <= |image| <= 8192))
    && (r.BadHeader? <==> 1 <= |image| <= 8192 && !SoundHeader(crc, d[512..1024]))
    && (r.BadHeader? ==> ParseHeader(crc, d[512..1024]) == Err(r.error))
    && (r == EntryList <==> HeadOf(crc, d, image) && !ManyEntries(d))
    && (r == Unused <==> HeadOf(crc, d, image) && ManyEntries(d) && !InUse(d))
    && (r == OtherLayout <==> HeadOf(crc, d, image) && ManyEntries(d) && InUse(d) && !InPlace(d))
    && (r == NoGuid <==> HeadOf(crc, d, image) && ManyEntries(d) && InUse(d) && InPlace(d) && !HasGuid(d))
  }

  /** How many sectors directory and documents take. */
  ghost function Span(docs: Docs): nat {
    1 + (|docs.entry| + 511) / 512 + (|docs.image| + 511) / 512 + (|docs.manifest| + 511) / 512
  }

  ghost predicate HitsAny(docs: Docs, lba: nat) {
    lba <= 20001 < lba + Span(docs) || lba <= 20002 < lba + Span(docs) || lba <= 32710 < lba + Span(docs)
  }

  ghost predicate SizesRight(docs: Docs) { 1 <= |docs.entry| <= 4096 && 1 <= |docs.manifest| <= 8192 }

  ghost predicate Placeable(docs: Docs, lba: nat) {
    SizesRight(docs) && !HitsAny(docs, lba) && 20001 <= lba && lba + Span(docs) - 1 <= 32700
  }

  /** When exactly it refuses with the table written, and when it has a fault to find in its own work. */
  ghost predicate LateRefusals(crc: Crc, n: nat, d: seq<Byte>, docs: Docs, lba: nat, r: Outcome)
    requires n >= 67 && |d| == 512 * n
  {
    LateAt(Patchable(crc, d, docs.image), d[512 * (n - 1)..512 * n], docs, lba, r)
  }

  ghost predicate LateAt(early: bool, backup: seq<Byte>, docs: Docs, lba: nat, r: Outcome)
    requires |backup| == 512
  {
    var foreign := backup[..8] != [0x45, 0x46, 0x49, 0x20, 0x50, 0x41, 0x52, 0x54];
    && (r == EntrySize <==> early && !(1 <= |docs.entry| <= 4096))
    && (r == ManifestSize <==> early && 1 <= |docs.entry| <= 4096 && !(1 <= |docs.manifest| <= 8192))
    && (r == HitsSuite <==> early && SizesRight(docs) && HitsAny(docs, lba))
    && (r == OutsidePartition <==>
          early && SizesRight(docs) && !HitsAny(docs, lba) && !(20001 <= lba && lba + Span(docs) - 1 <= 32700))
    && (r == BackupBad(NoSignature) <==> early && Placeable(docs, lba) && foreign)
    && (r == BackupBad(ForeignRevision) <==> early && Placeable(docs, lba) && !foreign && U32(backup, 8) != 0x10000)
    && (r == Done <==> early && Placeable(docs, lba) && !foreign && U32(backup, 8) == 0x10000)
  }

  lemma EntryBytes(d: seq<Byte>)
    requires |d| >= 17408
    ensures
      var e := EntryOf(ListOn(d), 1);
      && TypeOf(e) == d[1152..1168] && GuidOf(e) == d[1168..1184]
      && FirstOf(e) == U64(d, 1184) && LastOf(e) == U64(d, 1192)
  {
    var e := EntryOf(ListOn(d), 1);
    CutCut(d, 1024, 17408, 128, 256);
    assert e == d[1152..1280];
    CutCut(d, 1152, 1280, 0, 16);
    CutCut(d, 1152, 1280, 16, 32);
    CutU64(d, 1152, 1280, 32);
    CutU64(d, 1152, 1280, 40);
  }

  lemma EarlyExactly(crc: Crc, d: seq<Byte>, image: seq<Byte>)
    requires |d| >= 17408
    ensures EarlyRefusals(crc, d, image, Admitted(crc, d, image))
    ensures Admitted(crc, d, image) == Done <==> Patchable(crc, d, image)
  {
    EntryBytes(d);
    SoundParses(crc, Sector(d, 1));
    CutU32(d, 512, 1024, 80);
    CutU32(d, 512, 1024, 84);
  }

  lemma DocsExactly(docs: Docs, lba: nat)
    ensures
      var r := DocsAdmitted(docs, lba);
      && (r == Done <==> Placeable(docs, lba))
      && (r == EntrySize <==> !(1 <= |docs.entry| <= 4096))
      && (r == ManifestSize <==> 1 <= |docs.entry| <= 4096 && !(1 <= |docs.manifest| <= 8192))
      && (r == HitsSuite <==> SizesRight(docs) && HitsAny(docs, lba))
      && (r == OutsidePartition <==>
            SizesRight(docs) && !HitsAny(docs, lba) && !(20001 <= lba && lba + Span(docs) - 1 <= 32700))
      && r in {Done, EntrySize, ManifestSize, HitsSuite, OutsidePartition}
  {
    assert Needed(docs) == Span(docs);
    assert (exists x :: x in RESERVED_LBAS && lba <= x < lba + Needed(docs)) <==> HitsAny(docs, lba) by {
      if HitsAny(docs, lba) {
        assert 20001 in RESERVED_LBAS && 20002 in RESERVED_LBAS && 32710 in RESERVED_LBAS;
      }
    }
  }

  /** Every outcome of a run with its exact condition on the disk before and the documents. */
  lemma VerdictExactly(crc: Crc, n: nat, d: seq<Byte>, docs: Docs, lba: nat)
    requires n >= 67 && |d| == 512 * n
    ensures EarlyRefusals(crc, d, docs.image, Verdict(crc, n, d, docs, lba))
    ensures LateRefusals(crc, n, d, docs, lba, Verdict(crc, n, d, docs, lba))
  {
    EarlyExactly(crc, d, docs.image);
    DocsExactly(docs, lba);
    assert Sector(d, n - 1) == d[512 * (n - 1)..512 * n];
    LateFrom(Patchable(crc, d, docs.image), d[512 * (n - 1)..512 * n], docs, lba, Admitted(crc, d, docs.image),
             Verdict(crc, n, d, docs, lba));
  }

  lemma LateFrom(early: bool, backup: seq<Byte>, docs: Docs, lba: nat, first: Outcome, r: Outcome)
    requires |backup| == 512 && (first == Done <==> early)
    requires first in {Done, ImageSize, EntryList, Unused, OtherLayout, NoGuid} || first.BadHeader?
    requires r == if first != Done then first
                  else if DocsAdmitted(docs, lba) != Done then DocsAdmitted(docs, lba) else BackupVerdict(backup)
    ensures LateAt(early, backup, docs, lba, r)
    ensures first != Done ==> r == first
    ensures r in {ImageSize, EntryList, Unused, OtherLayout, NoGuid} || r.BadHeader? ==> first == r
  {
    DocsExactly(docs, lba);
  }

  function ReadList(d: seq<Byte>, h: Header): seq<Byte> {
    PySlice(d, h.entryLba * 512, h.entryLba * 512 + ListBytes(h))
  }

  /** A list as its header vouches for it, with the new type in place. */
  predicate ListGood(crc: Crc, d: seq<Byte>, h: Header) {
    var list := ReadList(d, h);
    crc(list) == h.entriesCrc && PySlice(list, 128, 144) == LxpdType()
  }

  predicate DocsGood(d: seq<Byte>, lba: nat, docs: Docs)
    requires 512 * (lba + Needed(docs)) <= |d|
  {
    var v := Sector(d, lba);
    var o := 512 * (lba + 1);
    var e, b := Sectors(|docs.entry|), Sectors(|docs.image|);
    && v[..8] == DirMagic()
    && U32(v, 8) == |docs.entry| && U32(v, 12) == |docs.image| && U32(v, 16) == |docs.manifest| && U32(v, 20) == 0
    && d[o..o + |docs.entry|] == docs.entry
    && d[o + 512 * e..o + 512 * e + |docs.image|] == docs.image
    && d[o + 512 * (e + b)..o + 512 * (e + b) + |docs.manifest|] == docs.manifest
  }

  /** The tool's own look at what it has written. */
  function SelfCheck(crc: Crc, d: seq<Byte>, lba: nat, docs: Docs): Outcome
    requires |d| >= 17408 && 512 * (lba + Needed(docs)) <= |d|
  {
    var head := ParseHeader(crc, Sector(d, 1));
    if head.Err? then BadHeader(head.error)
    else if !ListGood(crc, d, head.value) || 512 * head.value.alt + 512 > |d| then Mismatch
    else
      var backup := ParseHeader(crc, Sector(d, head.value.alt));
      if backup.Err? then BackupBad(backup.error)
      else if !ListGood(crc, d, backup.value) || !DocsGood(d, lba, docs) then Mismatch
      else Done
  }

  lemma DirRead(docs: Docs)
    requires Sized(docs)
    ensures
      var v := DirSector(docs);
      && v[..8] == DirMagic() && U32(v, 8) == |docs.entry| && U32(v, 12) == |docs.image|
      && U32(v, 16) == |docs.manifest| && U32(v, 20) == 0
  {
    var v := DirSector(docs);
    assert v[8..12] == Le32(|docs.entry|) && v[12..16] == Le32(|docs.image|);
    assert v[16..20] == Le32(|docs.manifest|) && v[20..24] == Le32(0);
    Le32Read(v, 8, |docs.entry|); Le32Read(v, 12, |docs.image|); Le32Read(v, 16, |docs.manifest|); Le32Read(v, 20, 0);
  }

  lemma PartRead(d: seq<Byte>, o: nat, a: seq<Byte>, b: seq<Byte>, c: seq<Byte>)
    requires HoldsAt(d, o, a + b + c)
    ensures HoldsAt(d, o, a) && HoldsAt(d, o + |a|, b) && HoldsAt(d, o + |a| + |b|, c)
  {
    var s := a + b + c;
    assert s[0..|a|] == a && s[|a|..|a| + |b|] == b && s[|a| + |b|..|a| + |b| + |c|] == c;
    HoldsCopied(s, d, o, 0, a);
    HoldsCopied(s, d, o, |a|, b);
    HoldsCopied(s, d, o, |a| + |b|, c);
  }

  lemma DocRead(d: seq<Byte>, o: nat, doc: seq<Byte>)
    requires HoldsAt(d, o, Padded(doc))
    ensures HoldsAt(d, o, doc)
  {
    HoldsCopied(Padded(doc), d, o, 0, doc);
  }

  lemma StreamRead(d: seq<Byte>, o: nat, docs: Docs)
    requires HoldsAt(d, o, Stream(docs))
    ensures HoldsAt(d, o, docs.entry) && HoldsAt(d, o + 512 * Sectors(|docs.entry|), docs.image)
    ensures HoldsAt(d, o + 512 * Sectors(|docs.entry|) + 512 * Sectors(|docs.image|), docs.manifest)
  {
    var a, b, c := Padded(docs.entry), Padded(docs.image), Padded(docs.manifest);
    PartRead(d, o, a, b, c);
    assert HoldsAt(d, o, docs.entry) by { DocRead(d, o, docs.entry); }
    assert HoldsAt(d, o + |a|, docs.image) by { DocRead(d, o + |a|, docs.image); }
    assert HoldsAt(d, o + |a| + |b|, docs.manifest) by { DocRead(d, o + |a| + |b|, docs.manifest); }
  }

  /** The directory and the three documents read back exactly. */
  lemma DocsReadBack(d: seq<Byte>, lba: nat, docs: Docs)
    requires Sized(docs) && 512 * (lba + Needed(docs)) <= |d|
    ensures DocsGood(WithDocs(d, lba, docs), lba, docs)
  {
    var e := WithDocs(d, lba, docs);
    DocsFrame(d, lba, docs);
    DirRead(docs);
    StreamRead(e, 512 * (lba + 1), docs);
    assert Sector(e, lba) == DirSector(docs);
  }

  /** Outside partition 2, and outside the table, nothing is written. */
  lemma LeftFrame(crc: Crc, n: nat, d: seq<Byte>, docs: Docs, lba: nat, pos: nat)
    requires n >= 32734 && |d| == 512 * n && pos < |d| && !InTable(n, pos)
    requires Left(crc, n, d, docs, lba)[pos] != d[pos]
    ensures 512 * PART_FIRST <= 512 * lba <= pos < 512 * (lba + Needed(docs)) <= 512 * (PART_LAST + 1)
    ensures forall x :: x in RESERVED_LBAS ==> !(512 * x <= pos < 512 * x + 512)
  {
    RewrittenTable(crc, n, d, NewList(ListOn(d)));
    DocsFrame(Patched(crc, n, d), lba, docs);
  }

  /** What a header says once its list is `list`. */
  function NewHeader(crc: Crc, n: nat, d: seq<Byte>, list: seq<Byte>, c: Copy): Header
    requires n >= 67 && |d| == 512 * n
  {
    Fields(Sector(d, HeadLba(n, c))).(entriesCrc := crc(list))
  }

  /** What a resealed copy parses to: its old fields and the new checksum, unless its signature or
      revision was foreign. */
  function NewParse(crc: Crc, n: nat, d: seq<Byte>, list: seq<Byte>, c: Copy): Result<Header, HeaderError>
    requires n >= 67 && |d| == 512 * n
  {
    var was := Sector(d, HeadLba(n, c));
    if was[..8] != Signature() then Err(NoSignature)
    else if U32(was, 8) != REVISION then Err(ForeignRevision)
    else Ok(NewHeader(crc, n, d, list, c))
  }

  lemma CopyResealed(crc: Crc, n: nat, d: seq<Byte>, e: seq<Byte>, list: seq<Byte>, c: Copy)
    requires Placed(n, d) && Rewrote(crc, n, d, e, list)
    ensures ParseHeader(crc, Sector(e, HeadLba(n, c))) == NewParse(crc, n, d, list, c)
    ensures HoldsAt(e, 512 * NewHeader(crc, n, d, list, c).entryLba, list)
    ensures ListBytes(NewHeader(crc, n, d, list, c)) == ENTRY_BYTES
    ensures ReadList(e, NewHeader(crc, n, d, list, c)) == list
  {
    assert CopyRewrote(crc, n, d, e, list, c) && CopyPlaced(n, d, c);
    ResealedParses(crc, Sector(d, HeadLba(n, c)), crc(list));
    ListHeld(e, NewHeader(crc, n, d, list, c), list);
  }

  lemma ListHeld(e: seq<Byte>, h: Header, list: seq<Byte>)
    requires h.num == NUM_ENTRIES && h.entrySize == ENTRY_SIZE && |list| == ENTRY_BYTES
             && HoldsAt(e, 512 * h.entryLba, list)
    ensures ListBytes(h) == ENTRY_BYTES && ReadList(e, h) == list
  {
  }

  lemma ListVouched(crc: Crc, n: nat, d: seq<Byte>, e: seq<Byte>, list: seq<Byte>, c: Copy)
    requires n >= 67 && |d| == 512 * n && PySlice(list, 128, 144) == LxpdType()
    requires ReadList(e, NewHeader(crc, n, d, list, c)) == list
    ensures ListGood(crc, e, NewHeader(crc, n, d, list, c))
  {
  }

  lemma NewType(list: seq<Byte>)
    requires |list| == ENTRY_BYTES
    ensures PySlice(NewList(list), 128, 144) == LxpdType()
    ensures forall i: nat | i < ENTRY_BYTES && !(128 <= i < 144) :: NewList(list)[i] == list[i]
  {
    SpliceFacts(list, 128, LxpdType());
  }

  /** Documents written into partition 2 are clear of the table. */
  lemma DocsSpareTable(n: nat, p: seq<Byte>, docs: Docs, lba: nat)
    requires n >= 32734 && |p| == 512 * n && Sized(docs) && DocsAdmitted(docs, lba) == Done
    ensures 512 * (lba + Needed(docs)) <= |p|
    ensures forall pos: nat | pos < |p| && InTable(n, pos) :: WithDocs(p, lba, docs)[pos] == p[pos]
  {
    DocsFrame(p, lba, docs);
  }

  /** What a run that reaches the end leaves. */
  lemma Completed(crc: Crc, n: nat, d: seq<Byte>, docs: Docs, lba: nat)
    requires n >= 32734 && |d| == 512 * n && Admitted(crc, d, docs.image) == Done && DocsAdmitted(docs, lba) == Done
    ensures 512 * (lba + Needed(docs)) <= |d| && DocsGood(Left(crc, n, d, docs, lba), lba, docs)
    ensures Rewrote(crc, n, d, Left(crc, n, d, docs, lba), NewList(ListOn(d)))
  {
    var p, list := Patched(crc, n, d), NewList(ListOn(d));
    RewrittenTable(crc, n, d, list);
    DocsSpareTable(n, p, docs, lba);
    RewroteKept(crc, n, d, p, WithDocs(p, lba, docs), list);
    DocsReadBack(p, lba, docs);
  }

  /** The tool's look at its own work can find one thing only: a backup header that was foreign. */
  lemma SelfCheckSays(crc: Crc, n: nat, d: seq<Byte>, e: seq<Byte>, list: seq<Byte>, docs: Docs, lba: nat)
    requires Placed(n, d) && NewParse(crc, n, d, list, Primary).Ok? && Rewrote(crc, n, d, e, list)
    requires PySlice(list, 128, 144) == LxpdType() && 512 * (lba + Needed(docs)) <= |e| && DocsGood(e, lba, docs)
    ensures SelfCheck(crc, e, lba, docs) == BackupVerdict(Sector(d, n - 1))
  {
    CopyResealed(crc, n, d, e, list, Primary);
    CopyResealed(crc, n, d, e, list, Backup);
    ListVouched(crc, n, d, e, list, Primary);
    ListVouched(crc, n, d, e, list, Backup);
    var h := NewHeader(crc, n, d, list, Primary);
    assert HeadLba(n, Primary) == 1 && HeadLba(n, Backup) == h.alt;
  }

  /** A copy resealed in place, and its list, as the self check reads them. */
  lemma ReadSealed(crc: Crc, d: seq<Byte>, e: seq<Byte>, lba: nat, size: nat, list: seq<Byte>)
    requires 512 * lba + 512 <= |d| == |e| && HoldsAt(e, 512 * lba, Resealed(crc, Sector(d, lba), size, crc(list)))
    requires Fields(Sector(d, lba)).size == size >= 20 && ListBytes(Fields(Sector(d, lba))) == |list|
    requires HoldsAt(e, 512 * Fields(Sector(d, lba)).entryLba, list) && PySlice(list, 128, 144) == LxpdType()
    ensures
      var s, h := Sector(d, lba), Fields(Sector(d, lba)).(entriesCrc := crc(list));
      && ParseHeader(crc, Sector(e, lba)) ==
           (if s[..8] != Signature() then Err(NoSignature)
            else if U32(s, 8) != REVISION then Err(ForeignRevision) else Ok(h))
      && ListGood(crc, e, h)
  {
    ResealedParses(crc, Sector(d, lba), crc(list));
    assert Sector(e, lba) == Resealed(crc, Sector(d, lba), size, crc(list));
    var h := Fields(Sector(d, lba)).(entriesCrc := crc(list));
    assert ReadList(e, h) == list;
  }

  /** Sectors from `lba` up to `end` that are no part of the table. */
  predicate OffTable(h: Header, b: Header, bytes: nat, lba: nat, end: nat) {
    && (end <= 1 || 1 < lba) && (end <= h.alt || h.alt < lba)
    && (end <= h.entryLba || 512 * h.entryLba + bytes <= 512 * lba)
    && (end <= b.entryLba || 512 * b.entryLba + bytes <= 512 * lba)
  }

  lemma SentKept(crc: Crc, d: seq<Byte>, p: seq<Byte>, h: Header, b: Header, list: seq<Byte>, docs: Docs, lba: nat)
    requires Sent(crc, d, p, h, b, list) && Sized(docs) && 512 * (lba + Needed(docs)) <= |p|
    requires OffTable(h, b, |list|, lba, lba + Needed(docs))
    ensures Sent(crc, d, WithDocs(p, lba, docs), h, b, list)
  {
    var e := WithDocs(p, lba, docs);
    DocsFrame(p, lba, docs);
    HoldsElsewhere(p, e, 512 * h.entryLba, list);
    HoldsElsewhere(p, e, 512 * b.entryLba, list);
    HoldsElsewhere(p, e, 512, Resealed(crc, Sector(d, 1), h.size, crc(list)));
    HoldsElsewhere(p, e, 512 * h.alt, Resealed(crc, Sector(d, h.alt), h.size, crc(list)));
  }

  /** In any layout: with the places apart, headers of one size, lists of one length and the documents off the
      table, the self check still comes down to the backup header's signature and revision. */
  lemma SelfCheckAnywhere(crc: Crc, d: seq<Byte>, h: Header, b: Header, list: seq<Byte>, docs: Docs, lba: nat)
    requires OnDisk(crc, d, h.entryLba, h.alt, h.size, list) && Apart(h, b, |list|) && |d| >= 17408
    requires ParseHeader(crc, Sector(d, 1)) == Ok(h) && h == Fields(Sector(d, 1)) && b == Fields(Sector(d, h.alt))
    requires h.size == b.size >= 20 && ListBytes(h) == ListBytes(b) == |list| && PySlice(list, 128, 144) == LxpdType()
    requires Sized(docs) && 512 * (lba + Needed(docs)) <= |d| && OffTable(h, b, |list|, lba, lba + Needed(docs))
    ensures
      var e := WithDocs(RewrittenAnywhere(crc, d, h.entryLba, h.alt, h.size, list), lba, docs);
      SelfCheck(crc, e, lba, docs) == BackupVerdict(Sector(d, h.alt))
  {
    var p := RewrittenAnywhere(crc, d, h.entryLba, h.alt, h.size, list);
    RewrittenApart(crc, d, h, b, list);
    SentKept(crc, d, p, h, b, list, docs, lba);
    DocsReadBack(p, lba, docs);
    CheckSent(crc, d, WithDocs(p, lba, docs), h, b, list, docs, lba);
  }

  lemma CheckSent(crc: Crc, d: seq<Byte>, e: seq<Byte>, h: Header, b: Header, list: seq<Byte>, docs: Docs, lba: nat)
    requires Sent(crc, d, e, h, b, list) && ParseHeader(crc, Sector(d, 1)) == Ok(h) && |e| >= 17408
    requires h.size == b.size >= 20 && ListBytes(h) == ListBytes(b) == |list| && PySlice(list, 128, 144) == LxpdType()
    requires 512 * (lba + Needed(docs)) <= |e| && DocsGood(e, lba, docs)
    ensures SelfCheck(crc, e, lba, docs) == BackupVerdict(Sector(d, h.alt))
  {
    ReadSealed(crc, d, e, 1, h.size, list);
    ReadSealed(crc, d, e, h.alt, h.size, list);
  }

  /** Everything up to the first write. */
  method Admit(disk: array<Byte>, crc: Crc, n: nat, image: seq<Byte>) returns (r: Outcome, h: Header, guid: seq<Byte>)
    requires n >= 32734 && disk.Length == 512 * n && (Listed(Fields(Sector(disk[..], 1))) ==> Placed(n, disk[..]))
    ensures EarlyRefusals(crc, disk[..], image, r) && (r == Done <==> Patchable(crc, disk[..], image))
    ensures r == Admitted(crc, disk[..], image)
    ensures r == Done ==> Placed(n, disk[..]) && ParseHeader(crc, Sector(disk[..], 1)) == Ok(h)
                          && h == Fields(Sector(disk[..], 1)) && guid == GuidOf(EntryOf(ListOn(disk[..]), 1))
  {
    h, guid := Fields(Sector(disk[..], 1)), [];
    EarlyExactly(crc, disk[..], image);
    if |image| < 1 || |image| > 8192 { return ImageSize, h, guid; }
    var head := ParseHeader(crc, Sector(disk[..], 1));
    if head.Err? { return BadHeader(head.error), h, guid; }
    h := head.value;
    if h.num < 2 || h.entrySize != ENTRY_SIZE { return EntryList, h, guid; }
    WherePlaced(n, disk[..]);
    ListRead(disk[..], h);
    var entry := EntryOf(PySlice(disk[..], h.entryLba * SECTOR, h.entryLba * SECTOR + h.num * h.entrySize), 1);
    if TypeOf(entry) == Zeros(16) { return Unused, h, guid; }
    if FirstOf(entry) != PART_FIRST || LastOf(entry) != PART_LAST { return OtherLayout, h, guid; }
    guid := GuidOf(entry);
    if guid == Zeros(16) { return NoGuid, h, guid; }
    return Done, h, guid;
  }

  method Patch(disk: array<Byte>, crc: Crc, n: nat, image: seq<Byte>, entryDoc: seq<Byte> -> seq<Byte>,
               manifest: seq<Byte>, lba: nat) returns (r: Outcome)
    requires n >= 32734 && disk.Length == 512 * n && (Listed(Fields(Sector(disk[..], 1))) ==> Placed(n, disk[..]))
    modifies disk
    ensures
      var d := old(disk[..]);
      var docs := DocsFor(d, image, entryDoc, manifest);
      r == Verdict(crc, n, d, docs, lba) && disk[..] == Left(crc, n, d, docs, lba)
    ensures
      var d := old(disk[..]);
      EarlyRefusals(crc, d, image, r) && LateRefusals(crc, n, d, DocsFor(d, image, entryDoc, manifest), lba, r)
    ensures disk[..] != old(disk[..]) || r == Done ==> Patchable(crc, old(disk[..]), image)
  {
    VerdictExactly(crc, n, disk[..], DocsFor(disk[..], image, entryDoc, manifest), lba);
    EarlyExactly(crc, disk[..], image);
    var early, h, guid := Admit(disk, crc, n, image);
    if early != Done { return early; }
    ghost var d := disk[..];
    PlacedPatched(crc, n, disk[..]);
    PatchTable(disk, crc, h);
    var docs := Docs(entryDoc(guid), image, manifest);
    var late := DocsAdmitted(docs, lba);
    if late != Done { return late; }
    WriteDocs(disk, lba, docs);
    Completed(crc, n, d, docs, lba);
    NewType(ListOn(d));
    SelfCheckSays(crc, n, d, disk[..], NewList(ListOn(d)), docs, lba);
    return SelfCheck(crc, disk[..], lba, docs);
  }

  /** What a run leaves: nothing is touched without a disk that may be patched; on one, both copies are resealed
      over one list whatever comes of the documents, and the documents are there if they may be. */
  lemma LeftSays(crc: Crc, n: nat, d: seq<Byte>, docs: Docs, lba: nat)
    requires Placed(n, d)
    ensures !Patchable(crc, d, docs.image) ==> Left(crc, n, d, docs, lba) == d
    ensures Patchable(crc, d, docs.image) ==>
              forall c: Copy :: CopySealed(crc, n, d, Left(crc, n, d, docs, lba), NewList(ListOn(d)), c)
    ensures Patchable(crc, d, docs.image) && !Placeable(docs, lba) ==>
              forall pos: nat | pos < |d| && !InTable(n, pos) :: Left(crc, n, d, docs, lba)[pos] == d[pos]
    ensures Patchable(crc, d, docs.image) && Placeable(docs, lba) ==>
              512 * (lba + Needed(docs)) <= |d| && DocsGood(Left(crc, n, d, docs, lba), lba, docs)
  {
    EarlyExactly(crc, d, docs.image);
    DocsExactly(docs, lba);
    if Patchable(crc, d, docs.image) {
      var e, list := Left(crc, n, d, docs, lba), NewList(ListOn(d));
      RewrittenTable(crc, n, d, list);
      if Placeable(docs, lba) { Completed(crc, n, d, docs, lba); }
      forall c: Copy
        ensures CopySealed(crc, n, d, e, list, c)
      {
        CopyResealed(crc, n, d, e, list, c);
      }
    }
  }

  /** A copy as it is after the table was written. */
  ghost predicate CopySealed(crc: Crc, n: nat, d: seq<Byte>, e: seq<Byte>, list: seq<Byte>, c: Copy)
    requires n >= 67 && |d| == 512 * n
  {
    && |e| == |d| && ParseHeader(crc, Sector(e, HeadLba(n, c))) == NewParse(crc, n, d, list, c)
    && ReadList(e, NewHeader(crc, n, d, list, c)) == list
  }

  /** After success both copies parse, agree on a list that differs from the primary's old one in one
      type only -- the backup's old list is not consulted -- and carry its checksum.  Neither old
      entry checksum is looked at: a list that no longer matched is resealed as it stands. */
  lemma PatchSeals(crc: Crc, n: nat, d: seq<Byte>, docs: Docs, lba: nat)
    requires Placed(n, d) && Verdict(crc, n, d, docs, lba) == Done
    ensures BothSealed(crc, n, d, Left(crc, n, d, docs, lba), NewList(ListOn(d)))
    ensures PySlice(NewList(ListOn(d)), 128, 144) == LxpdType()
    ensures forall i: nat | i < ENTRY_BYTES && !(128 <= i < 144) :: NewList(ListOn(d))[i] == ListOn(d)[i]
    ensures 512 * (lba + Needed(docs)) <= |d| && DocsGood(Left(crc, n, d, docs, lba), lba, docs)
  {
    var e, list := Left(crc, n, d, docs, lba), NewList(ListOn(d));
    Completed(crc, n, d, docs, lba);
    NewType(ListOn(d));
    forall c: Copy
      ensures SealedAt(crc, e, HeadLba(n, c), NewHeader(crc, n, d, list, c), list)
    {
      CopyResealed(crc, n, d, e, list, c);
    }
  }

  ghost predicate BothSealed(crc: Crc, n: nat, d: seq<Byte>, e: seq<Byte>, list: seq<Byte>)
    requires n >= 67 && |d| == 512 * n
  {
    forall c: Copy :: SealedAt(crc, e, HeadLba(n, c), NewHeader(crc, n, d, list, c), list)
  }
}
