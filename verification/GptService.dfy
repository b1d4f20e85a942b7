/** The loader service: how it finds a driver partition and reads the documents in it. */
module GptService {
  import opened Wrappers
  import opened Bytes
  import opened GptTables
  import opened GptPatch

  const MAX_SECTORS: nat := 8

  datatype LoadError =
    | NoCapacity | OutOfRange | Table(error: PartError) | EntriesCrc | EntryTooLarge | NoLxpdPartition
    | DirBroken | EntryTooBig | ImageTooBig | ManifestTooBig

  datatype Sighting = Sighting(first: nat, sectors: nat, guid: seq<Byte>, foreign: nat)

  /** Exactly `len` bytes from sector `lba` on, or nothing. */
  function ReadExact(d: seq<Byte>, lba: nat, len: nat): Result<seq<Byte>, LoadError> {
    if len == 0 then Ok([])
    else if 512 * (lba + Sectors(len)) > |d| then Err(OutOfRange)
    else Ok(d[512 * lba..512 * lba + len])
  }

  /** The service reads at most eight sectors at a time and drops what it did not ask for. */
  method ReadExactly(d: seq<Byte>, lba: nat, len: nat) returns (r: Result<seq<Byte>, LoadError>)
    requires |d| % 512 == 0
    ensures r == ReadExact(d, lba, len)
  {
    var capacity := |d| / 512;
    var buffer: seq<Byte>, sector := [], lba;
    while |buffer| < len
      invariant |buffer| <= len && lba <= sector && 512 * (sector - lba) >= |buffer|
      invariant |buffer| < len ==> 512 * (sector - lba) == |buffer|
      invariant |buffer| > 0 ==> 512 * sector <= |d| && buffer == d[512 * lba..512 * lba + |buffer|]
      invariant |buffer| == len && len > 0 ==> sector == lba + Sectors(len)
      decreases len - |buffer|
    {
      var rest := len - |buffer|;
      var count := if Sectors(rest) < MAX_SECTORS then Sectors(rest) else MAX_SECTORS;
      if sector >= capacity || sector + count > capacity { return Err(OutOfRange); }
      var take := if count * SECTOR <= rest then count * SECTOR else rest;
      ghost var before := buffer;
      buffer := buffer + d[512 * sector..512 * sector + take];
      assert buffer == d[512 * lba..512 * lba + |buffer|];
      sector := sector + count;
    }
    return Ok(buffer);
  }

  // ---------------------------------------------------------------------------------------------
  // Finding the partition
  // ---------------------------------------------------------------------------------------------

  /** Entry `i` as the service cuts it out of one sector; an entry across a sector border is not read. */
  function CutEntry(d: seq<Byte>, h: Header, i: nat): (r: Result<seq<Byte>, LoadError>)
    requires 128 <= h.entrySize <= 512
    ensures r.Ok? ==> |r.value| == h.entrySize
  {
    var off := EntryOffset(h, i);
    var lba, inner := h.entryLba + off / 512, off % 512;
    if 512 * (lba + 1) > |d| || inner + h.entrySize > 512 then Err(OutOfRange)
    else Ok(d[512 * lba + inner..512 * lba + inner + h.entrySize])
  }

  function EntryOffset(h: Header, i: nat): nat { i * h.entrySize }

  predicate Within(h: Header, first: nat, last: nat) {
    first <= last && h.first <= first && last <= h.last
  }

  predicate Used(e: seq<Byte>) requires |e| >= 128 { e[..16] != Zeros(16) }

  predicate Driver(h: Header, e: seq<Byte>)
    requires |e| >= 128
  {
    e[..16] == LxpdType() && Within(h, U64(e, 32), U64(e, 40))
  }

  function Search(d: seq<Byte>, h: Header, i: nat, index: nat, foreign: nat): Result<Sighting, LoadError>
    requires i <= h.num && 128 <= h.entrySize <= 512
    decreases |d|, h.num - i
  {
    if i == h.num then Err(NoLxpdPartition)
    else
      var cut := CutEntry(d, h, i);
      if cut.Err? then Err(cut.error)
      else
        var e := cut.value;
        if !Used(e) then Search(d, h, i + 1, index, foreign)
        else if !Driver(h, e) then Search(d, h, i + 1, index, foreign + 1)
        else if index > 0 then Search(d, h, i + 1, index - 1, foreign)
        else Ok(Sighting(U64(e, 32), U64(e, 40) - U64(e, 32) + 1, e[16..32], foreign))
  }

  // What the search means: positions and counts in the list.

  predicate DriverAt(d: seq<Byte>, h: Header, i: nat)
    requires 128 <= h.entrySize <= 512
  {
    var cut := CutEntry(d, h, i);
    cut.Ok? && Driver(h, cut.value)
  }

  predicate ForeignAt(d: seq<Byte>, h: Header, i: nat)
    requires 128 <= h.entrySize <= 512
  {
    var cut := CutEntry(d, h, i);
    cut.Ok? && Used(cut.value) && !Driver(h, cut.value)
  }

  /** How many of the first `n` entries are driver partitions, and how many are somebody else's. */
  ghost function DriversBefore(d: seq<Byte>, h: Header, n: nat): nat
    requires 128 <= h.entrySize <= 512
    decreases |d|, n
  {
    if n == 0 then 0 else DriversBefore(d, h, n - 1) + (if DriverAt(d, h, n - 1) then 1 else 0)
  }

  ghost function ForeignBefore(d: seq<Byte>, h: Header, n: nat): nat
    requires 128 <= h.entrySize <= 512
    decreases |d|, n
  {
    if n == 0 then 0 else ForeignBefore(d, h, n - 1) + (if ForeignAt(d, h, n - 1) then 1 else 0)
  }

  /** The first `n` entries can be cut out of their sectors. */
  ghost predicate Readable(d: seq<Byte>, h: Header, n: nat)
    requires 128 <= h.entrySize <= 512
  {
    forall i: nat | i < n :: CutEntry(d, h, i).Ok?
  }

  /** Entry `i` is the driver partition number `index`, and the search can get there. */
  ghost predicate FoundAt(d: seq<Byte>, h: Header, index: nat, i: nat)
    requires 128 <= h.entrySize <= 512
  {
    i < h.num && Readable(d, h, i) && DriverAt(d, h, i) && DriversBefore(d, h, i) == index
  }

  ghost function SightingAt(d: seq<Byte>, h: Header, i: nat): Sighting
    requires 128 <= h.entrySize <= 512 && DriverAt(d, h, i)
  {
    var e := CutEntry(d, h, i).value;
    Sighting(U64(e, 32), U64(e, 40) - U64(e, 32) + 1, e[16..32], ForeignBefore(d, h, i))
  }

  /** The search got to an entry it cannot read. */
  ghost predicate StuckAt(d: seq<Byte>, h: Header, index: nat, i: nat)
    requires 128 <= h.entrySize <= 512
  {
    i < h.num && Readable(d, h, i) && CutEntry(d, h, i).Err? && DriversBefore(d, h, i) <= index
  }

  /** One of three: the partition number `index`, too few of them, or an unreadable entry on the way. */
  ghost predicate Answers(d: seq<Byte>, h: Header, index: nat, r: Result<Sighting, LoadError>)
    requires 128 <= h.entrySize <= 512
  {
    match r
    case Ok(s) => exists i: nat :: FoundAt(d, h, index, i) && s == SightingAt(d, h, i)
    case Err(NoLxpdPartition) => Readable(d, h, h.num) && DriversBefore(d, h, h.num) <= index
    case Err(e) => e == OutOfRange && exists i: nat :: StuckAt(d, h, index, i)
  }

  lemma {:induction false} CountsMonotone(d: seq<Byte>, h: Header, i: nat, j: nat)
    requires 128 <= h.entrySize <= 512 && i <= j
    ensures DriversBefore(d, h, i) <= DriversBefore(d, h, j)
    decreases j
  {
    if i < j {
      CountsMonotone(d, h, i, j - 1);
    }
  }

  lemma DriverIsUsed(h: Header, e: seq<Byte>)
    requires |e| >= 128 && Driver(h, e)
    ensures Used(e)
  {
    assert LxpdType()[0] != Zeros(16)[0];
  }

  /** One entry further. */
  lemma SearchStep(d: seq<Byte>, h: Header, i: nat, index: nat, more: nat, foreign: nat)
      returns (more': nat, foreign': nat)
    requires 128 <= h.entrySize <= 512 && i < h.num && CutEntry(d, h, i).Ok? && !(DriverAt(d, h, i) && more == 0)
    requires index == DriversBefore(d, h, i) + more && foreign == ForeignBefore(d, h, i)
    ensures index == DriversBefore(d, h, i + 1) + more' && foreign' == ForeignBefore(d, h, i + 1)
    ensures Search(d, h, i, more, foreign) == Search(d, h, i + 1, more', foreign')
  {
    var e := CutEntry(d, h, i).value;
    if Driver(h, e) { DriverIsUsed(h, e); }
    more' := if DriverAt(d, h, i) then more - 1 else more;
    foreign' := if ForeignAt(d, h, i) then foreign + 1 else foreign;
  }

  /** The search ends here. */
  lemma SearchEnds(d: seq<Byte>, h: Header, i: nat, index: nat, more: nat, foreign: nat)
    requires 128 <= h.entrySize <= 512 && i <= h.num && Readable(d, h, i)
    requires index == DriversBefore(d, h, i) + more && foreign == ForeignBefore(d, h, i)
    requires i == h.num || CutEntry(d, h, i).Err? || (DriverAt(d, h, i) && more == 0)
    ensures Answers(d, h, index, Search(d, h, i, more, foreign))
  {
    if i < h.num {
      var cut := CutEntry(d, h, i);
      if cut.Err? {
        assert StuckAt(d, h, index, i);
      } else {
        DriverIsUsed(h, cut.value);
        assert FoundAt(d, h, index, i);
        assert Search(d, h, i, more, foreign) == Ok(SightingAt(d, h, i));
      }
    }
  }

  lemma {:induction false} SearchFrom(d: seq<Byte>, h: Header, i: nat, index: nat, more: nat, foreign: nat)
    requires 128 <= h.entrySize <= 512 && i <= h.num && Readable(d, h, i)
    requires index == DriversBefore(d, h, i) + more && foreign == ForeignBefore(d, h, i)
    ensures Answers(d, h, index, Search(d, h, i, more, foreign))
    decreases h.num - i
  {
    if i == h.num || CutEntry(d, h, i).Err? || (DriverAt(d, h, i) && more == 0) {
      SearchEnds(d, h, i, index, more, foreign);
    } else {
      var more', foreign' := SearchStep(d, h, i, index, more, foreign);
      SearchFrom(d, h, i + 1, index, more', foreign');
    }
  }

  lemma SearchAnswers(d: seq<Byte>, h: Header, index: nat)
    requires 128 <= h.entrySize <= 512
    ensures Answers(d, h, index, Search(d, h, 0, index, 0))
  {
    SearchFrom(d, h, 0, index, index, 0);
  }

  lemma FoundIsPassed(d: seq<Byte>, h: Header, index: nat, i: nat, j: nat)
    requires 128 <= h.entrySize <= 512 && FoundAt(d, h, index, i) && i < j
    ensures DriversBefore(d, h, j) > index
  {
    CountsMonotone(d, h, i + 1, j);
  }

  lemma FoundOnce(d: seq<Byte>, h: Header, index: nat, i: nat, j: nat)
    requires 128 <= h.entrySize <= 512 && FoundAt(d, h, index, i) && FoundAt(d, h, index, j)
    ensures i == j
  {
    if i < j { FoundIsPassed(d, h, index, i, j); } else if j < i { FoundIsPassed(d, h, index, j, i); }
  }

  lemma FoundIsNotStuck(d: seq<Byte>, h: Header, index: nat, i: nat, j: nat)
    requires 128 <= h.entrySize <= 512 && FoundAt(d, h, index, i)
    ensures !StuckAt(d, h, index, j)
  {
    if i < j { FoundIsPassed(d, h, index, i, j); }
  }

  /** No other answer fits beside a found partition. */
  lemma FoundIsAnswer(d: seq<Byte>, h: Header, index: nat, i: nat, r: Result<Sighting, LoadError>)
    requires 128 <= h.entrySize <= 512 && FoundAt(d, h, index, i) && Answers(d, h, index, r)
    ensures r == Ok(SightingAt(d, h, i))
  {
    FoundIsPassed(d, h, index, i, h.num);
    forall j: nat
      ensures !StuckAt(d, h, index, j)
    {
      FoundIsNotStuck(d, h, index, i, j);
    }
    if r.Ok? {
      var j: nat :| FoundAt(d, h, index, j) && r.value == SightingAt(d, h, j);
      FoundOnce(d, h, index, i, j);
    }
  }

  /** So the search finds a partition exactly if it is the `index`-th driver partition of the list and
      every entry before it can be read; `foreign` counts the used entries before it that are not. */
  lemma SearchMeans(d: seq<Byte>, h: Header, index: nat, s: Sighting)
    requires 128 <= h.entrySize <= 512
    ensures Search(d, h, 0, index, 0) == Ok(s) <==> exists i: nat :: FoundAt(d, h, index, i) && s == SightingAt(d, h, i)
  {
    SearchAnswers(d, h, index);
    forall i: nat | FoundAt(d, h, index, i)
      ensures Search(d, h, 0, index, 0) == Ok(SightingAt(d, h, i))
    {
      FoundIsAnswer(d, h, index, i, Search(d, h, 0, index, 0));
    }
  }

  // The same on the bytes of the disk: entry `i` of the list that the header in sector 1 names.

  ghost function HeadBytes(d: seq<Byte>): (s: seq<Byte>)
    requires |d| >= 1024
    ensures |s| == 512
  {
    d[512..1024]
  }

  ghost function EntryAt(d: seq<Byte>, i: nat): nat
    requires |d| >= 1024
  {
    512 * U64(HeadBytes(d), 72) + Product(i, U32(HeadBytes(d), 84))
  }

  /** The entry lies on the disk and within one sector. */
  ghost predicate EntryWhole(d: seq<Byte>, i: nat)
    requires |d| >= 1024
  {
    EntryAt(d, i) + U32(HeadBytes(d), 84) <= |d| && EntryAt(d, i) % 512 + U32(HeadBytes(d), 84) <= 512
  }

  /** A driver partition: its type, and bounds in order and inside the usable area. */
  ghost predicate DriverEntry(d: seq<Byte>, i: nat)
    requires |d| >= 1024
  {
    var at, s := EntryAt(d, i), HeadBytes(d);
    && EntryWhole(d, i) && at + 128 <= |d|
    && d[at..at + 16] ==
         [0x4c, 0x58, 0x50, 0x44, 0x2d, 0x43, 0x41, 0x50, 0x52, 0x4f, 0x43, 0x4b, 0x2d, 0x44, 0x52, 0x56]
    && U64(s, 40) <= U64(d, at + 32) <= U64(d, at + 40) <= U64(s, 48)
  }

  ghost predicate ForeignEntry(d: seq<Byte>, i: nat)
    requires |d| >= 1024
  {
    var at := EntryAt(d, i);
    EntryWhole(d, i) && at + 128 <= |d| && d[at..at + 16] != Zeros(16) && !DriverEntry(d, i)
  }

  lemma CutWhere(d: seq<Byte>, h: Header, i: nat)
    requires 128 <= h.entrySize <= 512 && |d| % 512 == 0
    ensures
      var at := 512 * h.entryLba + Product(i, h.entrySize);
      && (CutEntry(d, h, i).Ok? <==> at % 512 + h.entrySize <= 512 && at + h.entrySize <= |d|)
      && (CutEntry(d, h, i).Ok? ==> CutEntry(d, h, i).value == d[at..at + h.entrySize])
  {
    var off := EntryOffset(h, i);
    var lba, inner := h.entryLba + off / 512, off % 512;
    var at: nat := 512 * h.entryLba + off;
    assert off == 512 * (off / 512) + off % 512;
    assert at == 512 * lba + inner && at % 512 == inner;
    if inner + h.entrySize <= 512 && at + h.entrySize <= |d| {
      var sectors := |d| / 512;
      assert |d| == 512 * sectors && 512 * lba < 512 * sectors;
    }
  }

  /** What the search takes for a driver partition and for somebody else's, on the bytes. */
  lemma EntriesExactly(d: seq<Byte>, h: Header, i: nat)
    requires |d| >= 1024 && |d| % 512 == 0 && h == Fields(HeadBytes(d)) && 128 <= h.entrySize <= 512
    ensures CutEntry(d, h, i).Ok? <==> EntryWhole(d, i)
    ensures DriverAt(d, h, i) <==> DriverEntry(d, i)
    ensures ForeignAt(d, h, i) <==> ForeignEntry(d, i)
    ensures DriverAt(d, h, i) ==>
              var at, s := EntryAt(d, i), SightingAt(d, h, i);
              && s.first == U64(d, at + 32) && s.first + s.sectors == U64(d, at + 40) + 1
              && s.guid == d[at + 16..at + 32] && s.foreign == ForeignBefore(d, h, i)
  {
    CutWhere(d, h, i);
    if CutEntry(d, h, i).Ok? { EntryFields(d, EntryAt(d, i), h.entrySize, CutEntry(d, h, i).value); }
  }

  lemma EntryFields(d: seq<Byte>, at: nat, size: nat, e: seq<Byte>)
    requires 128 <= size && at + size <= |d| && e == d[at..at + size]
    ensures e[..16] == d[at..at + 16] && e[16..32] == d[at + 16..at + 32]
    ensures U64(e, 32) == U64(d, at + 32) && U64(e, 40) == U64(d, at + 40)
  {
    CutU64(d, at, at + size, 32);
    CutU64(d, at, at + size, 40);
    CutCut(d, at, at + size, 0, 16);
    CutCut(d, at, at + size, 16, 32);
  }

  /** The list lies on the disk, and the header's checksum over it is right. */
  ghost predicate ListThere(d: seq<Byte>)
    requires |d| >= 1024
  {
    512 * U64(HeadBytes(d), 72) + Product(U32(HeadBytes(d), 80), U32(HeadBytes(d), 84)) <= |d|
  }

  ghost predicate ListSealed(crc: Crc, d: seq<Byte>)
    requires |d| >= 1024 && ListThere(d)
  {
    var s := HeadBytes(d);
    crc(d[512 * U64(s, 72)..512 * U64(s, 72) + Product(U32(s, 80), U32(s, 84))]) == U32(s, 88)
  }

  ghost predicate HeadAccepted(crc: Crc, d: seq<Byte>) {
    |d| >= 1024 && ParseStrict(crc, HeadBytes(d)).Ok? && U32(HeadBytes(d), 84) <= 512
  }

  /** When exactly the service refuses the table, and what it says of one it does not refuse. */
  ghost predicate FoundOrRefused(crc: Crc, d: seq<Byte>, index: nat, r: Result<Sighting, LoadError>) {
    var sealed := HeadAccepted(crc, d) && ListThere(d) && ListSealed(crc, d);
    && (r == Err(NoCapacity) <==> |d| < 512)
    && (r.Err? && r.error.Table? <==> |d| >= 1024 && ParseStrict(crc, HeadBytes(d)).Err?)
    && (r.Err? && r.error.Table? ==> ParseStrict(crc, HeadBytes(d)) == Err(r.error.error))
    && (r == Err(EntryTooLarge) <==>
          |d| >= 1024 && ParseStrict(crc, HeadBytes(d)).Ok? && U32(HeadBytes(d), 84) > 512)
    && (r == Err(EntriesCrc) <==> HeadAccepted(crc, d) && ListThere(d) && !ListSealed(crc, d))
    && (r.Ok? || r == Err(NoLxpdPartition) ==> sealed)
    && (512 <= |d| < 1024 || (HeadAccepted(crc, d) && !ListThere(d)) ==> r == Err(OutOfRange))
    && (sealed ==> Answers(d, Fields(HeadBytes(d)), index, r))
  }

  lemma FindExactly(crc: Crc, d: seq<Byte>, index: nat)
    requires |d| % 512 == 0
    ensures FoundOrRefused(crc, d, index, FindPartition(crc, d, index))
  {
    if |d| >= 1024 {
      var s := HeadBytes(d);
      assert s == Sector(d, 1);
      StrictExactly(crc, s);
      if HeadAccepted(crc, d) { AcceptedExactly(crc, d, index, FindPartition(crc, d, index)); }
    }
  }

  lemma AcceptedExactly(crc: Crc, d: seq<Byte>, index: nat, r: Result<Sighting, LoadError>)
    requires |d| % 512 == 0 && HeadAccepted(crc, d) && r == FindPartition(crc, d, index)
    ensures r == Err(EntriesCrc) <==> ListThere(d) && !ListSealed(crc, d)
    ensures !ListThere(d) ==> r == Err(OutOfRange)
    ensures ListThere(d) && ListSealed(crc, d) ==> Answers(d, Fields(HeadBytes(d)), index, r)
  {
    var s := HeadBytes(d);
    assert s == Sector(d, 1);
    StrictExactly(crc, s);
    ListReadable(d, U64(s, 72), Product(U32(s, 80), U32(s, 84)));
    SearchAnswers(d, Fields(s), index);
  }

  /** On a disk of whole sectors, what lies on the disk can be read. */
  lemma ListReadable(d: seq<Byte>, lba: nat, len: nat)
    requires |d| % 512 == 0 && len > 0
    ensures ReadExact(d, lba, len) ==
              if 512 * lba + len <= |d| then Ok(d[512 * lba..512 * lba + len]) else Err(OutOfRange)
  {
    var k := Sectors(len);
    assert |d| == 512 * (|d| / 512);
  }

  function FindPartition(crc: Crc, d: seq<Byte>, index: nat): Result<Sighting, LoadError> {
    if |d| < 512 then Err(NoCapacity)
    else if |d| < 1024 then Err(OutOfRange)
    else
      var head := ParseStrict(crc, Sector(d, 1));
      if head.Err? then Err(Table(head.error))
      else if head.value.entrySize > 512 then Err(EntryTooLarge)
      else
        var list := ReadExact(d, head.value.entryLba, ListBytes(head.value));
        if list.Err? then Err(list.error)
        else if crc(list.value) != head.value.entriesCrc then Err(EntriesCrc)
        else Search(d, head.value, 0, index, 0)
  }

  method Find(crc: Crc, d: seq<Byte>, index: nat) returns (r: Result<Sighting, LoadError>)
    requires |d| % 512 == 0
    ensures r == FindPartition(crc, d, index) && FoundOrRefused(crc, d, index, r)
  {
    FindExactly(crc, d, index);
    if |d| / 512 == 0 { return Err(NoCapacity); }
    var sector := ReadExactly(d, 1, 512);
    if sector.Err? { return Err(sector.error); }
    assert sector.value == Sector(d, 1);
    var head := ParseStrict(crc, sector.value);
    if head.Err? { return Err(Table(head.error)); }
    var h := head.value;
    if h.entrySize > 512 { return Err(EntryTooLarge); }
    var list := ReadExactly(d, h.entryLba, ListBytes(h));
    if list.Err? { return Err(list.error); }
    if crc(list.value) != h.entriesCrc { return Err(EntriesCrc); }
    r := SearchAll(d, h, index);
  }

  method SearchAll(d: seq<Byte>, h: Header, index: nat) returns (r: Result<Sighting, LoadError>)
    requires 128 <= h.entrySize <= 512
    ensures r == Search(d, h, 0, index, 0)
  {
    var found, foreign := 0, 0;
    for i := 0 to h.num
      invariant found <= index && Search(d, h, 0, index, 0) == Search(d, h, i, index - found, foreign)
    {
      var cut := CutEntry(d, h, i);
      if cut.Err? { return Err(cut.error); }
      var e := cut.value;
      if Used(e) {
        if Driver(h, e) {
          if found == index { return Ok(Sighting(U64(e, 32), U64(e, 40) - U64(e, 32) + 1, e[16..32], foreign)); }
          found := found + 1;
        } else {
          foreign := foreign + 1;
        }
      }
    }
    return Err(NoLxpdPartition);
  }

  // ---------------------------------------------------------------------------------------------
  // Reading the documents
  // ---------------------------------------------------------------------------------------------

  datatype Lengths = Lengths(entry: nat, image: nat, manifest: nat)

  function ParseDirectory(v: seq<Byte>, sectors: nat): (r: Result<Lengths, LoadError>)
    requires |v| == 512
    ensures r.Ok? ==> r.value.entry > 0 && r.value.image > 0 && r.value.manifest > 0
  {
    var e, b, m := U32(v, 8), U32(v, 12), U32(v, 16);
    if v[..8] != DirMagic() || U32(v, 20) != 0 || e == 0 then Err(DirBroken)
    else if e > 4096 then Err(EntryTooBig)
    else if b == 0 then Err(DirBroken)
    else if b > 65536 then Err(ImageTooBig)
    else if m == 0 then Err(DirBroken)
    else if m > 8192 then Err(ManifestTooBig)
    else if Sectors(e + b + m) + 1 > sectors then Err(DirBroken)
    else Ok(Lengths(e, b, m))
  }

  /** The three refusals of a directory for its lengths, and when it is taken; every other one is broken. */
  lemma DirectoryExactly(v: seq<Byte>, sectors: nat)
    requires |v| == 512
    ensures
      var r, e, b, m := ParseDirectory(v, sectors), U32(v, 8), U32(v, 12), U32(v, 16);
      var ours := v[..8] == [0x4c, 0x58, 0x49, 0x4d, 0x47, 0x32, 0, 0] && U32(v, 20) == 0;
      && (r == Err(EntryTooBig) <==> ours && e > 4096)
      && (r == Err(ImageTooBig) <==> ours && 1 <= e <= 4096 && b > 65536)
      && (r == Err(ManifestTooBig) <==> ours && 1 <= e <= 4096 && 1 <= b <= 65536 && m > 8192)
      && (r.Ok? <==> ours && 1 <= e <= 4096 && 1 <= b <= 65536 && 1 <= m <= 8192 && (e + b + m + 511) / 512 < sectors)
      && (r.Ok? ==> r.value == Lengths(e, b, m))
      && (r.Err? ==> r.error in {DirBroken, EntryTooBig, ImageTooBig, ManifestTooBig})
  {
  }

  function LoadDocuments(d: seq<Byte>, first: nat, sectors: nat): Result<Docs, LoadError> {
    if 512 * (first + 1) > |d| then Err(OutOfRange)
    else
      var v := ParseDirectory(Sector(d, first), sectors);
      if v.Err? then Err(v.error) else ReadThree(d, first + 1, v.value)
  }

  /** The three documents behind the directory, one after the other. */
  function ReadThree(d: seq<Byte>, at: nat, l: Lengths): Result<Docs, LoadError> {
    var e := ReadExact(d, at, l.entry);
    var b := ReadExact(d, at + Sectors(l.entry), l.image);
    var m := ReadExact(d, at + Sectors(l.entry) + Sectors(l.image), l.manifest);
    if e.Err? then Err(e.error) else if b.Err? then Err(b.error) else if m.Err? then Err(m.error)
    else Ok(Docs(e.value, b.value, m.value))
  }

  method ReadDocuments(d: seq<Byte>, first: nat, sectors: nat) returns (r: Result<Docs, LoadError>)
    requires |d| % 512 == 0
    ensures r == LoadDocuments(d, first, sectors)
  {
    var dir := ReadExactly(d, first, SECTOR);
    if dir.Err? { return Err(dir.error); }
    assert dir.value == Sector(d, first);
    var v := ParseDirectory(dir.value, sectors);
    if v.Err? { return Err(v.error); }
    var lba := first + 1;
    var e := ReadExactly(d, lba, v.value.entry);
    if e.Err? { return Err(e.error); }
    lba := lba + Sectors(v.value.entry);
    var b := ReadExactly(d, lba, v.value.image);
    if b.Err? { return Err(b.error); }
    lba := lba + Sectors(v.value.image);
    var m := ReadExactly(d, lba, v.value.manifest);
    if m.Err? { return Err(m.error); }
    return Ok(Docs(e.value, b.value, m.value));
  }

  /** The service reads three documents exactly if a directory in the partition's first sector announces them,
      within the limits and the partition, and they are there. */
  lemma LoadsExactly(d: seq<Byte>, first: nat, sectors: nat, docs: Docs)
    ensures LoadDocuments(d, first, sectors) == Ok(docs) <==>
              && 512 * (first + Needed(docs)) <= |d| && DocsGood(d, first, docs)
              && 1 <= |docs.entry| <= 4096 && 1 <= |docs.image| <= 65536 && 1 <= |docs.manifest| <= 8192
              && 1 + (|docs.entry| + |docs.image| + |docs.manifest| + 511) / 512 <= sectors
  {
    LoadedParts(d, first, sectors, docs);
    if 512 * (first + 1) <= |d| { AnnouncedExactly(d, first, sectors, docs); }
    if 512 * (first + Needed(docs)) <= |d| { GoodParts(d, first, docs); }
  }

  /** The directory says these lengths. */
  ghost predicate DirSays(v: seq<Byte>, docs: Docs)
    requires |v| == 512
  {
    && v[..8] == DirMagic() && U32(v, 20) == 0
    && U32(v, 8) == |docs.entry| && U32(v, 12) == |docs.image| && U32(v, 16) == |docs.manifest|
  }

  lemma AnnouncedExactly(d: seq<Byte>, first: nat, sectors: nat, docs: Docs)
    requires 512 * (first + 1) <= |d|
    ensures Announced(d, first, sectors, docs) <==>
              && DirSays(Sector(d, first), docs)
              && 1 <= |docs.entry| <= 4096 && 1 <= |docs.image| <= 65536 && 1 <= |docs.manifest| <= 8192
              && 1 + (|docs.entry| + |docs.image| + |docs.manifest| + 511) / 512 <= sectors
  {
    DirectoryExactly(Sector(d, first), sectors);
  }

  lemma GoodParts(d: seq<Byte>, first: nat, docs: Docs)
    requires 512 * (first + Needed(docs)) <= |d|
    ensures DocsGood(d, first, docs) <==> DirSays(Sector(d, first), docs) && DocsThere(d, first, docs)
  {
  }

  /** The directory is right and says these lengths. */
  ghost predicate Announced(d: seq<Byte>, first: nat, sectors: nat, docs: Docs) {
    && 512 * (first + 1) <= |d|
    && ParseDirectory(Sector(d, first), sectors) == Ok(Lengths(|docs.entry|, |docs.image|, |docs.manifest|))
  }

  ghost predicate DocsThere(d: seq<Byte>, first: nat, docs: Docs) {
    var at, e, b := first + 1, Sectors(|docs.entry|), Sectors(|docs.image|);
    && DocThere(d, at, docs.entry) && DocThere(d, at + e, docs.image) && DocThere(d, at + e + b, docs.manifest)
  }

  ghost predicate DocThere(d: seq<Byte>, lba: nat, doc: seq<Byte>) {
    512 * (lba + Sectors(|doc|)) <= |d| && d[512 * lba..512 * lba + |doc|] == doc
  }

  lemma LoadedParts(d: seq<Byte>, first: nat, sectors: nat, docs: Docs)
    ensures LoadDocuments(d, first, sectors) == Ok(docs) <==>
              Announced(d, first, sectors, docs) && DocsThere(d, first, docs)
  {
    if 512 * (first + 1) <= |d| {
      var v := ParseDirectory(Sector(d, first), sectors);
      if v.Ok? { ThreeExactly(d, first, v.value, docs); }
    }
  }

  lemma ThreeExactly(d: seq<Byte>, first: nat, l: Lengths, docs: Docs)
    requires l.entry > 0 && l.image > 0 && l.manifest > 0
    ensures ReadThree(d, first + 1, l) == Ok(docs) <==>
              l == Lengths(|docs.entry|, |docs.image|, |docs.manifest|) && DocsThere(d, first, docs)
  {
    var at, e, b := first + 1, Sectors(l.entry), Sectors(l.image);
    ReadsExactly(d, at, l.entry, docs.entry);
    ReadsExactly(d, at + e, l.image, docs.image);
    ReadsExactly(d, at + e + b, l.manifest, docs.manifest);
  }

  lemma ReadsExactly(d: seq<Byte>, lba: nat, len: nat, doc: seq<Byte>)
    requires len > 0
    ensures ReadExact(d, lba, len) == Ok(doc) <==> |doc| == len && DocThere(d, lba, doc)
  {
  }

  /** Where the patch tool wrote its directory, the service would read exactly its documents. */
  lemma LoadsWhatWasWritten(d: seq<Byte>, lba: nat, docs: Docs, sectors: nat)
    requires Sized(docs) && 512 * (lba + Needed(docs)) <= |d| && Needed(docs) <= sectors && DocsGood(d, lba, docs)
    ensures LoadDocuments(d, lba, sectors) == Ok(docs)
  {
    var v := Sector(d, lba);
    assert Sectors(|docs.entry| + |docs.image| + |docs.manifest|) + 1 <= Needed(docs);
    assert ParseDirectory(v, sectors) == Ok(Lengths(|docs.entry|, |docs.image|, |docs.manifest|));
  }
}
